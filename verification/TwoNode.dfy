/**
 Two providers and the wires between them: what a successful completion means, over every
 interleaving of posting, polling, inbound frames and wire failure on both nodes.
 */
module TwoNode {
  import opened Words
  import opened GuestMemory
  import opened SideChannel
  import opened Rings
  import opened Provider
  import opened ProviderQueues

  /**
   What has happened between a requester and a responder: the jobs the requester gave ids to
   and the responses it stored, the copies the responder made and the reads it served.
   */
  datatype Ledger = Ledger(built: seq<Job>, landed: seq<Landing>, copied: seq<Copy>, served: seq<Reading>)

  function Between(x: Node, y: Node): Ledger {
    Ledger(x.built, x.landed, y.copied, y.served)
  }

  predicate Grows(l: Ledger, l': Ledger) {
    l.built <= l'.built && l.landed <= l'.landed && l.copied <= l'.copied && l.served <= l'.served
  }

  // ---- what is true of jobs, frames and table entries ----

  predicate Known(l: Ledger, req: U32) {
    1 <= req <= |l.built|
  }

  predicate Copied(job: Job, l: Ledger) {
    Copy(job.req, job.wr.remote, job.wr.token, job.data) in l.copied
  }

  predicate Served(job: Job, data: seq<Byte>, l: Ledger) {
    |data| == job.wr.len && Reading(job.req, job.wr.remote, job.wr.token, data) in l.served
  }

  /** The responder copied the payload of a WRITE; the requester stored what the responder read. */
  ghost predicate Fulfilled(job: Job, l: Ledger) {
    && (job.wr.op == Write ==> Copied(job, l))
    && (job.wr.op == Read ==> exists data ::
          Served(job, data, l) && Landing(job.req, job.wr.local, data) in l.landed)
  }

  predicate JobTrue(job: Job, l: Ledger) {
    Numbered(job.wr.op) ==> Known(l, job.req) && l.built[job.req - 1] == job
  }

  predicate Request(f: Frame, l: Ledger) {
    match f
    case WriteRq(va, token, len, req, data) =>
      && Known(l, req) && len == |data|
      && var job := l.built[req - 1];
         job.req == req && job.wr.remote == va && job.wr.token == token && job.data == data
    case ReadRq(va, token, len, req, _) =>
      && Known(l, req)
      && var job := l.built[req - 1];
         job.req == req && job.wr.op == Read && job.wr.remote == va && job.wr.token == token && job.wr.len == len
    case SendMsg(_, len, data) => len <= |data|
    case _ => true
  }

  predicate Response(f: Frame, l: Ledger) {
    match f
    case WriteAck(req, status) => Known(l, req) && (status == 0 ==> Copied(l.built[req - 1], l))
    case ReadRsp(req, len, status, data) =>
      Known(l, req) && (status == 0 ==> l.built[req - 1].wr.op == Read && Served(l.built[req - 1], data, l))
    case _ => true
  }

  /** A frame under way from a node, l being its ledger as requester and r the one as responder. */
  predicate Honest(f: Frame, l: Ledger, r: Ledger) {
    Request(f, l) && Response(f, r)
  }

  predicate AllHonest(fs: seq<Frame>, l: Ledger, r: Ledger) {
    forall i :: 0 <= i < |fs| ==> Honest(fs[i], l, r)
  }

  predicate HonestOption(f: Option<Frame>, l: Ledger, r: Ledger) {
    f.Some? ==> Honest(f.value, l, r)
  }

  /** An outstanding READ or WRITE still waits for its own answer, or has it and its status is true. */
  ghost predicate EntryTrue(e: Entry, job: Job, l: Ledger) {
    job.wr.op == Write || job.wr.op == Read ==>
      e.req == job.req || (e.req == 0 && (e.status == 0 ==> Fulfilled(job, l)))
  }

  ghost predicate EntriesTrue(q: seq<Entry>, jobs: seq<Job>, l: Ledger) {
    |q| == |jobs| && forall k :: 0 <= k < |q| ==> EntryTrue(q[k], jobs[k], l)
  }

  predicate AcksTrue(acks: seq<Ack>, l: Ledger) {
    forall i :: 0 <= i < |acks| && acks[i].valid ==>
      Known(l, acks[i].req) && (acks[i].status == 0 ==> Copied(l.built[acks[i].req - 1], l))
  }

  predicate JobsTrue(posted: seq<Job>, l: Ledger) {
    forall k :: 0 <= k < |posted| ==> JobTrue(posted[k], l)
  }

  ghost predicate DoneTrue(cr: Cr, job: Job, l: Ledger) {
    cr.status == 0 ==> Fulfilled(job, l)
  }

  ghost predicate DonesTrue(done: seq<Cr>, posted: seq<Job>, l: Ledger) {
    |done| <= |posted| && forall k :: 0 <= k < |done| ==> DoneTrue(done[k], posted[k], l)
  }

  predicate PosterTrue(p: Poster, l: Ledger, r: Ledger) {
    match p
    case Built(job, frame) => JobTrue(job, l) && HonestOption(frame, l, r)
    case Recorded(frame) => HonestOption(frame, l, r)
    case _ => true
  }

  predicate IdsTrue(n: Node) {
    n.reqSeq == (1 + |n.built|) % WORD32
  }

  predicate LandingsTrue(l: Ledger) {
    forall i :: 0 <= i < |l.landed| ==> LandingTrue(l.landed[i], l)
  }

  predicate LandingTrue(x: Landing, l: Ledger) {
    Known(l, x.req) && l.built[x.req - 1].wr.local == x.va && Served(l.built[x.req - 1], x.data, l)
  }

  ghost predicate Requester(n: Node, l: Ledger, r: Ledger)
    requires NodeOk(n)
  {
    && IdsTrue(n) && |n.done| <= |n.posted|
    && EntriesTrue(Live(n.out), n.posted[|n.done|..], l)
    && AcksTrue(n.acks, l) && JobsTrue(n.posted, l) && DonesTrue(n.done, n.posted, l)
    && PosterTrue(n.poster, l, r) && HonestOption(n.reply, l, r)
    && LandingsTrue(l)
  }

  // ---- everything stays true as the ledgers grow ----

  lemma FulfilledGrows(job: Job, l: Ledger, l': Ledger)
    requires Fulfilled(job, l) && Grows(l, l')
    ensures Fulfilled(job, l')
  {
    if job.wr.op == Read {
      var data :| Served(job, data, l) && Landing(job.req, job.wr.local, data) in l.landed;
      assert Served(job, data, l') && Landing(job.req, job.wr.local, data) in l'.landed;
    }
  }

  lemma HonestGrows(f: Frame, l: Ledger, r: Ledger, l': Ledger, r': Ledger)
    requires Honest(f, l, r) && Grows(l, l') && Grows(r, r')
    ensures Honest(f, l', r')
  {
  }

  lemma AllHonestGrows(fs: seq<Frame>, l: Ledger, r: Ledger, l': Ledger, r': Ledger)
    requires AllHonest(fs, l, r) && Grows(l, l') && Grows(r, r')
    ensures AllHonest(fs, l', r')
  {
    hide Honest, Grows;
    forall i | 0 <= i < |fs| ensures Honest(fs[i], l', r') {
      HonestGrows(fs[i], l, r, l', r');
    }
  }

  lemma EntriesGrow(q: seq<Entry>, jobs: seq<Job>, l: Ledger, l': Ledger)
    requires EntriesTrue(q, jobs, l) && Grows(l, l')
    ensures EntriesTrue(q, jobs, l')
  {
    hide Fulfilled, Grows;
    forall k | 0 <= k < |q| ensures EntryTrue(q[k], jobs[k], l') {
      if Fulfilled(jobs[k], l) {
        FulfilledGrows(jobs[k], l, l');
      }
    }
  }

  lemma DonesGrow(done: seq<Cr>, posted: seq<Job>, l: Ledger, l': Ledger)
    requires DonesTrue(done, posted, l) && Grows(l, l')
    ensures DonesTrue(done, posted, l')
  {
    hide Fulfilled, Grows;
    forall k | 0 <= k < |done| ensures DoneTrue(done[k], posted[k], l') {
      if Fulfilled(posted[k], l) {
        FulfilledGrows(posted[k], l, l');
      }
    }
  }

  lemma PosterGrows(p: Poster, l: Ledger, r: Ledger, l': Ledger, r': Ledger)
    requires PosterTrue(p, l, r) && Grows(l, l') && Grows(r, r')
    ensures PosterTrue(p, l', r')
  {
  }

  lemma ReplyGrows(f: Option<Frame>, l: Ledger, r: Ledger, l': Ledger, r': Ledger)
    requires HonestOption(f, l, r) && Grows(l, l') && Grows(r, r')
    ensures HonestOption(f, l', r')
  {
  }

  lemma TablesGrow(n: Node, l: Ledger, l': Ledger)
    requires AcksTrue(n.acks, l) && JobsTrue(n.posted, l) && Grows(l, l')
    ensures AcksTrue(n.acks, l') && JobsTrue(n.posted, l')
  {
  }

  lemma RequesterGrows(n: Node, l: Ledger, r: Ledger, l': Ledger, r': Ledger)
    requires NodeOk(n) && Requester(n, l, r) && Grows(l, l') && Grows(r, r') && LandingsTrue(l')
    ensures Requester(n, l', r')
  {
    hide EntriesTrue, AcksTrue, JobsTrue, DonesTrue, PosterTrue, HonestOption, Grows, LandingsTrue;
    EntriesGrow(Live(n.out), n.posted[|n.done|..], l, l');
    TablesGrow(n, l, l');
    DonesGrow(n.done, n.posted, l, l');
    PosterGrows(n.poster, l, r, l', r');
    ReplyGrows(n.reply, l, r, l', r');
  }

  lemma LandingsGrow(l: Ledger, l': Ledger)
    requires LandingsTrue(l) && Grows(l, l') && l.landed == l'.landed
    ensures LandingsTrue(l')
  {
  }

  // ---- the posting thread ----

  /** A fresh request id names the job it was given to. */
  lemma AllocatedTrue(n: Node, y: Node, job: Job, p: Poster)
    requires NodeOk(n) && Requester(n, Between(n, y), Between(y, n))
    requires |n.built| < WORD32 - 1 && job.req == n.reqSeq
    requires var n' := Allocated(n, job).(poster := p);
      JobTrue(job, Between(n', y)) ==> PosterTrue(p, Between(n', y), Between(y, n'))
    ensures var n' := Allocated(n, job).(poster := p); Requester(n', Between(n', y), Between(y, n'))
  {
    hide EntriesTrue, AcksTrue, JobsTrue, DonesTrue, LandingsTrue, PosterTrue, HonestOption;
    var n' := Allocated(n, job).(poster := p);
    var l, l', r := Between(n, y), Between(n', y), Between(y, n);
    assert Grows(l, l') && Grows(r, r);
    LandingsGrow(l, l');
    RequesterGrows(n, l, r, l', r);
  }

  lemma BuildTrue(n: Node, y: Node, dst: U32, cna: U32, room: bool)
    requires NodeOk(n) && n.poster.Checked? && Requester(n, Between(n, y), Between(y, n))
    requires |n.built| < WORD32 - 1
    ensures var n' := Build(n, dst, cna, room); Requester(n', Between(n', y), Between(y, n'))
  {
    hide EntriesTrue, AcksTrue, JobsTrue, DonesTrue, LandingsTrue, Requester, PlanWr, NodeOk;
    var plan := PlanWr(n.mem, n.reqSeq, n.poster.wr, dst, cna, room);
    PlanIs(n.mem, n.reqSeq, n.poster.wr, dst, cna, room);
    if plan.numbered.Some? {
      AllocatedTrue(n, y, plan.numbered.value, plan.next);
    } else {
      PosterOnly(n, plan.next, Between(n, y), Between(y, n));
    }
  }

  /** A plan's frame asks for what its job is; without an id there is no request at all. */
  lemma PlanIs(mem: map<nat, Byte>, req: U32, wr: Wr, dst: U32, cna: U32, room: bool)
    ensures var plan := PlanWr(mem, req, wr, dst, cna, room);
      && (plan.numbered.None? ==> PosterFresh(plan.next))
      && (plan.numbered.Some? ==> plan.numbered.value.req == req && Numbered(plan.numbered.value.wr.op)
                                   && PosterFor(plan.numbered.value, plan.next))
  {
    hide Gather, Span;
  }

  predicate PosterFor(job: Job, p: Poster) {
    p.Idle? || (p.Built? && p.job == job && p.frame.Some?
      && match p.frame.value
         case WriteRq(va, token, len, req, data) =>
           req == job.req && len == |data| && va == job.wr.remote && token == job.wr.token && data == job.data
         case ReadRq(va, token, len, req, _) =>
           req == job.req && job.wr.op == Read && va == job.wr.remote && token == job.wr.token && len == job.wr.len
         case _ => false)
  }

  predicate PosterFresh(p: Poster) {
    p.Idle? || (p.Built? && !Numbered(p.job.wr.op)
      && (p.frame.Some? ==> p.frame.value.SendMsg? && p.frame.value.len <= |p.frame.value.data|))
  }

  lemma PosterOnly(n: Node, p: Poster, l: Ledger, r: Ledger)
    requires NodeOk(n) && Requester(n, l, r) && PosterTrue(p, l, r)
    ensures Requester(n.(poster := p), l, r)
  {
  }

  lemma RecordTrue(n: Node, l: Ledger, r: Ledger, submitted: bool)
    requires NodeOk(n) && n.poster.Built? && InOrder(n) && Requester(n, l, r)
    ensures Requester(Record(n, submitted), l, r)
  {
    hide AcksTrue, DoneTrue, LandingsTrue, HonestOption, JobTrue, Fulfilled, Outstanding, Queues, Live;
    if submitted {
      var n' := Record(n, submitted);
      var job := n.poster.job;
      var e := n'.out.slots[n.out.tail];
      PushLive(n.out, e);
      assert n'.posted[|n.done|..] == n.posted[|n.done|..] + [job];
    }
  }

  lemma RefusedTrue(n: Node, l: Ledger, r: Ledger)
    requires NodeOk(n) && Requester(n, l, r)
    ensures Requester(SendRefused(n), l, r)
  {
    hide AcksTrue, JobsTrue, DonesTrue, LandingsTrue, Fulfilled, Live;
    var i := LastSlot(n.out);
    SetLast(n.out, i, n.out.slots[i].(status := ACK_TIMEOUT_ERR, req := 0));
  }

  // ---- polling ----

  /** The oldest entry changed to one that is true. */
  lemma HeadTrue(q: seq<Entry>, jobs: seq<Job>, l: Ledger, e: Entry)
    requires EntriesTrue(q, jobs, l) && q != [] && EntryTrue(e, jobs[0], l)
    ensures EntriesTrue(q[0 := e], jobs, l)
  {
  }

  lemma SettleTrue(n: Node, l: Ledger, r: Ledger, wireErr: bool)
    requires NodeOk(n) && InOrder(n) && n.out.head != n.out.tail && Requester(n, l, r)
    ensures Requester(Settle(n, wireErr), l, r)
  {
    hide DonesTrue, LandingsTrue, PosterTrue, HonestOption, Live, Queues, Copied;
    var e := Settle(n, wireErr).out.slots[n.out.head];
    var e0, job := n.out.slots[n.out.head], n.posted[|n.done|];
    assert Slot(n.out, 0) == n.out.head;
    HeadIs(n.out);
    assert Matches(Live(n.out)[0], n.posted[|n.done| + 0]);
    assert EntryTrue(e0, job, l) && JobTrue(job, l);
    SetLive(n.out, 0, e);
    HeadTrue(Live(n.out), n.posted[|n.done|..], l, e);
  }

  lemma HeadIs(out: Ring<Entry>)
    requires Ok(out) && out.head != out.tail
    ensures Live(out) != [] && Live(out)[0] == out.slots[out.head]
  {
  }

  lemma WaitedTrue(n: Node, l: Ledger, r: Ledger)
    requires NodeOk(n) && n.out.head != n.out.tail && Requester(n, l, r)
    ensures Requester(Waited(n), l, r)
  {
    hide DonesTrue, LandingsTrue, PosterTrue, HonestOption, Live, AcksTrue, JobsTrue, Fulfilled;
    var e := Waited(n).out.slots[n.out.head];
    assert Slot(n.out, 0) == n.out.head;
    HeadIs(n.out);
    assert EntryTrue(Live(n.out)[0], n.posted[|n.done|..][0], l);
    SetLive(n.out, 0, e);
    HeadTrue(Live(n.out), n.posted[|n.done|..], l, e);
  }

  lemma RetireTrue(n: Node, l: Ledger, r: Ledger)
    requires NodeOk(n) && InOrder(n) && Requester(n, l, r)
    requires n.out.head != n.out.tail && !Unanswered(n.out.slots[n.out.head])
    ensures Requester(Retire(n), l, r)
  {
    hide LandingsTrue, PosterTrue, HonestOption, AcksTrue, Live, Queues;
    var e, job := n.out.slots[n.out.head], n.posted[|n.done|];
    HeadIs(n.out);
    assert Matches(Live(n.out)[0], n.posted[|n.done| + 0]);
    assert EntryTrue(Live(n.out)[0], n.posted[|n.done|..][0], l) && JobTrue(job, l);
    assert DoneTrue(Completion(e), job, l);
    PopLive(n.out);
    assert n.posted[|n.done| + 1..] == n.posted[|n.done|..][1..];
  }

  lemma {:induction false} HarvestTrue(n: Node, l: Ledger, r: Ledger, wireErr: bool, flits: nat, backstop: nat)
    requires NodeOk(n) && InOrder(n) && Requester(n, l, r)
    ensures Requester(Harvest(n, wireErr, flits, backstop), l, r)
    decreases Count(n.out)
  {
    hide InOrder, Requester, Settle, Waited;
    if n.out.head != n.out.tail {
      var n1 := Settle(n, wireErr);
      SettleInOrder(n, wireErr);
      SettleTrue(n, l, r, wireErr);
      if !Unanswered(n1.out.slots[n1.out.head]) {
        var waits := !wireErr && flits == 0;
        var n2 := if waits then Waited(n1) else n1;
        if waits {
          WaitedInOrder(n1);
          WaitedTrue(n1, l, r);
          WaitedAnswered(n1);
        }
        if !(waits && n2.out.slots[n2.out.head].waited <= backstop) && !Full(n2.jfcs[n2.sendJfc].ring) {
          RetireInOrder(n2);
          RetireTrue(n2, l, r);
          HarvestTrue(Retire(n2), l, r, wireErr, if flits > 0 then flits - 1 else 0, backstop);
        }
      }
    }
  }

  lemma WaitedAnswered(n: Node)
    requires NodeOk(n)
    ensures Unanswered(Waited(n).out.slots[n.out.head]) == Unanswered(n.out.slots[n.out.head])
  {
  }

  lemma PollTrue(n: Node, l: Ledger, r: Ledger, jfc: nat, count: int, wireErr: bool, flits: nat, backstop: nat)
    requires NodeOk(n) && InOrder(n) && Requester(n, l, r) && jfc < |n.jfcs|
    ensures Requester(Poll(n, jfc, count, wireErr, flits, backstop), l, r)
  {
    hide Harvest, Take, EntriesTrue, DonesTrue, AcksTrue, JobsTrue, LandingsTrue, PosterTrue, HonestOption, Live;
    HarvestTrue(n, l, r, wireErr, flits, backstop);
  }

  // ---- inbound frames ----

  /** Requester, with the ledgers as they are after a step of n. */
  ghost predicate StillTrue(n: Node, n': Node, y: Node)
    requires NodeOk(n')
  {
    && Requester(n', Between(n', y), Between(y, n'))
    && Grows(Between(n, y), Between(n', y)) && Grows(Between(y, n), Between(y, n'))
  }

  /** Serving a request: the responder's log grows and the reply says what was done. */
  lemma ServedTrue(n: Node, n': Node, y: Node)
    requires NodeOk(n) && Requester(n, Between(n, y), Between(y, n))
    requires n.copied <= n'.copied && n.served <= n'.served
    requires n' == n.(mem := n'.mem, copied := n'.copied, served := n'.served, reply := n'.reply)
    requires HonestOption(n'.reply, Between(n', y), Between(y, n'))
    ensures StillTrue(n, n', y)
  {
    hide EntriesTrue, AcksTrue, JobsTrue, DonesTrue, LandingsTrue, PosterTrue, HonestOption;
    var l, r, r' := Between(n, y), Between(y, n), Between(y, n');
    RequesterGrows(n, l, r, l, r');
  }

  lemma WriteRqTrue(n: Node, y: Node, f: Frame)
    requires NodeOk(n) && Requester(n, Between(n, y), Between(y, n))
    requires f.WriteRq? && Request(f, Between(y, n))
    ensures StillTrue(n, OnWriteRq(n, f.va, f.token, f.len, f.req, f.data), y)
  {
    hide Requester, Scatter, Span, RegionValid, Grows;
    var n' := OnWriteRq(n, f.va, f.token, f.len, f.req, f.data);
    var job := y.built[f.req - 1];
    assert f.data[..f.len] == f.data;
    if n'.copied != n.copied {
      assert n'.copied[|n.copied|] == Copy(job.req, job.wr.remote, job.wr.token, job.data);
    }
    ServedTrue(n, n', y);
  }

  lemma ReadRqTrue(n: Node, y: Node, f: Frame, alloc: Alloc)
    requires NodeOk(n) && Requester(n, Between(n, y), Between(y, n)) && n.reply.None?
    requires f.ReadRq? && Request(f, Between(y, n))
    ensures StillTrue(n, OnReadRq(n, f.va, f.token, f.len, f.req, alloc), y)
  {
    hide Requester, Gather, Span, RegionValid, Grows;
    var n' := OnReadRq(n, f.va, f.token, f.len, f.req, alloc);
    var job := y.built[f.req - 1];
    if n'.served != n.served {
      assert n'.served[|n.served|] == Reading(job.req, job.wr.remote, job.wr.token, n'.reply.value.data);
    }
    ServedTrue(n, n', y);
  }

  /** The answer to an outstanding WR is recorded in its entry. */
  lemma AnsweredTrue(n: Node, l: Ledger, r: Ledger, k: nat, status: U32)
    requires NodeOk(n) && Requester(n, l, r) && k < Count(n.out)
    requires status == 0 ==> Fulfilled(n.posted[|n.done|..][k], l)
    ensures Requester(n.(out := Answered(n.out, k, status)), l, r)
  {
    hide AcksTrue, JobsTrue, DonesTrue, LandingsTrue, PosterTrue, HonestOption, Fulfilled, Live;
    SetLive(n.out, k, n.out.slots[Slot(n.out, k)].(status := status, req := 0));
  }

  /** A waiting entry with a request id is the entry of the job with that id. */
  lemma EntryOfJob(n: Node, l: Ledger, r: Ledger, k: nat)
    requires NodeOk(n) && InOrder(n) && Requester(n, l, r) && k < Count(n.out)
    ensures |n.done| + k < |n.posted|
    ensures var e, job := Live(n.out)[k], n.posted[|n.done|..][k];
      Matches(e, job) && JobTrue(job, l) && EntryTrue(e, job, l)
  {
    hide AcksTrue, DonesTrue, LandingsTrue, PosterTrue, HonestOption, Fulfilled, Live, Queues, JobTrue;
    assert Matches(Live(n.out)[k], n.posted[|n.done| + k]);
    assert JobTrue(n.posted[|n.done| + k], l);
  }

  lemma WriteAckTrue(n: Node, y: Node, f: Frame)
    requires NodeOk(n) && InOrder(n) && Requester(n, Between(n, y), Between(y, n))
    requires f.WriteAck? && Response(f, Between(n, y))
    ensures StillTrue(n, OnWriteAck(n, f.req, f.status), y)
  {
    hide InOrder, EntriesTrue, JobsTrue, DonesTrue, LandingsTrue, PosterTrue, HonestOption, Live, First, Copied;
    var l, r := Between(n, y), Between(y, n);
    var k := First(Live(n.out), (e: Entry) => AwaitsAck(e, f.req));
    if k < Count(n.out) {
      EntryOfJob(n, l, r, k);
      AnsweredTrue(n, l, r, k, f.status);
    }
  }

  lemma SendMsgTrue(n: Node, y: Node, len: U32, data: seq<Byte>)
    requires NodeOk(n) && Requester(n, Between(n, y), Between(y, n)) && len <= |data|
    ensures StillTrue(n, OnSend(n, len, data), y)
  {
    hide EntriesTrue, AcksTrue, JobsTrue, DonesTrue, LandingsTrue, PosterTrue, HonestOption, Live, Scatter, Span;
  }

  lemma LandedTrue(n: Node, y: Node, job: Job, data: seq<Byte>, mem: map<nat, Byte>)
    requires NodeOk(n) && Requester(n, Between(n, y), Between(y, n))
    requires JobTrue(job, Between(n, y)) && job.wr.op == Read && Served(job, data, Between(n, y))
    ensures var n' := n.(mem := mem, landed := n.landed + [Landing(job.req, job.wr.local, data)]);
      StillTrue(n, n', y) && Fulfilled(job, Between(n', y))
  {
    hide EntriesTrue, AcksTrue, JobsTrue, DonesTrue, PosterTrue, HonestOption, Live;
    var x := Landing(job.req, job.wr.local, data);
    var n' := n.(mem := mem, landed := n.landed + [x]);
    var l, r, l' := Between(n, y), Between(y, n), Between(n', y);
    assert LandingTrue(x, l');
    assert n'.landed[|n.landed|] == x;
    RequesterGrows(n, l, r, l', r);
    assert Served(job, data, l') && x in l'.landed;
  }

  lemma ReadRspTrue(n: Node, y: Node, f: Frame)
    requires NodeOk(n) && InOrder(n) && Requester(n, Between(n, y), Between(y, n))
    requires f.ReadRsp? && Response(f, Between(n, y))
    ensures StillTrue(n, OnReadRsp(n, f.req, f.len, f.status, f.data), y)
  {
    hide InOrder, Requester, Live, First, Fulfilled, Scatter, Span, Grows;
    var l, r := Between(n, y), Between(y, n);
    assert StillTrue(n, n, y) by { SameLedger(n, y); }
    var k := First(Live(n.out), (e: Entry) => AwaitsData(e, f.req));
    if k < Count(n.out) {
      EntryOfJob(n, l, r, k);
      var e, job := Live(n.out)[k], n.posted[|n.done|..][k];
      var n' := OnReadRsp(n, f.req, f.len, f.status, f.data);
      var status' := n'.out.slots[Slot(n.out, k)].status;
      if status' == 0 {
        assert f.data[..f.len] == f.data;
        LandedTrue(n, y, job, f.data, n'.mem);
        AnsweredTrue(n.(mem := n'.mem, landed := n'.landed), Between(n', y), r, k, 0);
      } else {
        AnsweredTrue(n, l, r, k, status');
      }
    }
  }

  lemma SameLedger(n: Node, y: Node)
    ensures Grows(Between(n, y), Between(n, y)) && Grows(Between(y, n), Between(y, n))
  {
  }

  // ---- one step of either node ----

  /** The invariant of two nodes and their wires, seen from one of them. */
  ghost predicate Sound(x: Side, y: Node) {
    && NodeOk(x.node) && NodeOk(y) && InOrder(x.node) && InOrder(y)
    && Requester(x.node, Between(x.node, y), Between(y, x.node))
    && Requester(y, Between(y, x.node), Between(x.node, y))
    && AllHonest(x.tx, Between(x.node, y), Between(y, x.node))
    && AllHonest(x.rx, Between(y, x.node), Between(x.node, y))
  }

  lemma DeliverTrue(n: Node, y: Node, f: Frame, alloc: Alloc)
    requires NodeOk(n) && InOrder(n) && n.reply.None? && Requester(n, Between(n, y), Between(y, n))
    requires Honest(f, Between(y, n), Between(n, y))
    ensures StillTrue(n, DataCb(n, Tag(f), Body(f), alloc), y)
  {
    hide DataCb, InOrder, Requester, StillTrue, OnWriteRq, OnWriteAck, OnSend, OnReadRq, OnReadRsp;
    DataCbIsOnFrame(n, f, alloc);
    match f
    case WriteRq(_, _, _, _, _) => WriteRqTrue(n, y, f);
    case WriteAck(_, _) => WriteAckTrue(n, y, f);
    case SendMsg(_, len, data) => SendMsgTrue(n, y, len, data);
    case ReadRq(_, _, _, _, _) => ReadRqTrue(n, y, f, alloc);
    case ReadRsp(_, _, _, _) => ReadRspTrue(n, y, f);
  }

  /** A step that changes neither tables nor logs. */
  lemma Unrelated(n: Node, n': Node, y: Node)
    requires NodeOk(n) && NodeOk(n') && Requester(n, Between(n, y), Between(y, n))
    requires n' == n.(mem := n'.mem, regions := n'.regions, rq := n'.rq, failed := n'.failed)
    ensures StillTrue(n, n', y)
  {
    hide EntriesTrue, AcksTrue, JobsTrue, DonesTrue, LandingsTrue, PosterTrue, HonestOption, Live;
  }

  lemma BuildStillTrue(n: Node, y: Node, dst: U32, cna: U32, room: bool)
    requires NodeOk(n) && n.poster.Checked? && Requester(n, Between(n, y), Between(y, n))
    requires |Build(n, dst, cna, room).built| <= WORD32 - 1
    ensures StillTrue(n, Build(n, dst, cna, room), y)
  {
    hide Requester, Build;
    BuildLogs(n, dst, cna, room);
    if |n.built| < WORD32 - 1 {
      BuildTrue(n, y, dst, cna, room);
    } else {
      PosterOnly(n, Build(n, dst, cna, room).poster, Between(n, y), Between(y, n));
    }
  }

  /** Building takes at most one id; without one, only the poster moves. */
  lemma BuildLogs(n: Node, dst: U32, cna: U32, room: bool)
    requires NodeOk(n) && n.poster.Checked?
    ensures var n' := Build(n, dst, cna, room);
      && n.built <= n'.built && n'.landed == n.landed && n'.copied == n.copied && n'.served == n.served
      && (n'.built == n.built ==> n' == n.(poster := n'.poster) && PosterFresh(n'.poster))
  {
    hide NodeOk, PlanWr;
    PlanIs(n.mem, n.reqSeq, n.poster.wr, dst, cna, room);
  }

  lemma PosterStillTrue(n: Node, y: Node, p: Poster)
    requires NodeOk(n) && Requester(n, Between(n, y), Between(y, n)) && PosterTrue(p, Between(n, y), Between(y, n))
    ensures StillTrue(n, n.(poster := p), y)
  {
    hide Requester;
    PosterOnly(n, p, Between(n, y), Between(y, n));
  }

  lemma PostTrue(s: Side, step: Step, y: Node)
    requires Enabled(s, step) && InOrder(s.node) && Requester(s.node, Between(s.node, y), Between(y, s.node))
    requires step.CheckStep? || step.BuildStep? || step.RecordStep? || step.SendStep?
    requires |Do(s, step).node.built| <= WORD32 - 1
    ensures StillTrue(s.node, Do(s, step).node, y)
  {
    hide InOrder, Requester, StillTrue, Build, Record, SendRefused;
    var n := s.node;
    match step
    case CheckStep(wr) =>
      PosterStillTrue(n, y, n.poster);
      PosterStillTrue(n, y, Checked(wr));
    case BuildStep(dst, cna, room) => BuildStillTrue(n, y, dst, cna, room);
    case RecordStep(submitted) => RecordStillTrue(n, y, submitted);
    case SendStep(sent) =>
      RefusedStillTrue(n, y);
      PosterStillTrue(n, y, Idle);
  }

  lemma RecordStillTrue(n: Node, y: Node, submitted: bool)
    requires NodeOk(n) && n.poster.Built? && InOrder(n) && Requester(n, Between(n, y), Between(y, n))
    ensures StillTrue(n, Record(n, submitted), y)
  {
    hide InOrder, Requester, Record;
    RecordTrue(n, Between(n, y), Between(y, n), submitted);
    RecordSame(n, submitted);
  }

  lemma RefusedStillTrue(n: Node, y: Node)
    requires NodeOk(n) && Requester(n, Between(n, y), Between(y, n))
    ensures StillTrue(n, SendRefused(n), y)
  {
    hide Requester, SendRefused;
    RefusedTrue(n, Between(n, y), Between(y, n));
    RefusedSame(n);
  }

  predicate SameLogs(n: Node, n': Node) {
    n'.built == n.built && n'.landed == n.landed && n'.copied == n.copied && n'.served == n.served
  }

  lemma RecordSame(n: Node, submitted: bool)
    requires NodeOk(n) && n.poster.Built?
    ensures SameLogs(n, Record(n, submitted))
  {
  }

  lemma RefusedSame(n: Node)
    requires NodeOk(n)
    ensures SameLogs(n, SendRefused(n))
  {
  }

  lemma RoundSame(n: Node, wireErr: bool)
    requires NodeOk(n)
    ensures SameLogs(n, Settle(n, wireErr)) && SameLogs(n, Waited(n)) && SameLogs(n, Retire(n))
  {
  }

  lemma {:induction false} HarvestSame(n: Node, wireErr: bool, flits: nat, backstop: nat)
    requires NodeOk(n)
    ensures SameLogs(n, Harvest(n, wireErr, flits, backstop))
    decreases Count(n.out)
  {
    hide Settle, Waited;
    if n.out.head != n.out.tail {
      var n1 := Settle(n, wireErr);
      RoundSame(n, wireErr);
      if !Unanswered(n1.out.slots[n1.out.head]) {
        var waits := !wireErr && flits == 0;
        var n2 := if waits then Waited(n1) else n1;
        RoundSame(n1, wireErr);
        if !(waits && n2.out.slots[n2.out.head].waited <= backstop) && !Full(n2.jfcs[n2.sendJfc].ring) {
          RoundSame(n2, wireErr);
          HarvestSame(Retire(n2), wireErr, if flits > 0 then flits - 1 else 0, backstop);
        }
      }
    }
  }

  lemma StepTrue(s: Side, step: Step, y: Node)
    requires Enabled(s, step) && Sound(s, y)
    requires |Do(s, step).node.built| <= WORD32 - 1
    ensures StillTrue(s.node, Do(s, step).node, y)
  {
    hide InOrder, Requester, StillTrue, Poll, DataCb, Record, SendRefused, Build, Check;
    var n, n' := s.node, Do(s, step).node;
    match step
    case CheckStep(_) => PostTrue(s, step, y);
    case BuildStep(_, _, _) => PostTrue(s, step, y);
    case RecordStep(_) => PostTrue(s, step, y);
    case SendStep(_) => PostTrue(s, step, y);
    case DeliverStep(alloc) => DeliverTrue(n, y, s.rx[0], alloc);
    case ReplyStep(_) => ReplySentTrue(n, y);
    case PollStep(jfc, count, wireErr, flits, backstop) => PollStillTrue(n, y, jfc, count, wireErr, flits, backstop);
    case RecvStep(_) => Unrelated(n, n', y);
    case RegisterStep(_, _, _) => Unrelated(n, n', y);
    case UnregisterStep(_, _) => Unrelated(n, n', y);
    case StoreStep(_, _) => Unrelated(n, n', y);
    case FailStep(_) => Unrelated(n, n', y);
  }

  lemma ReplySentTrue(n: Node, y: Node)
    requires NodeOk(n) && Requester(n, Between(n, y), Between(y, n))
    ensures StillTrue(n, n.(reply := None), y)
  {
  }

  lemma PollStillTrue(n: Node, y: Node, jfc: nat, count: int, wireErr: bool, flits: nat, backstop: nat)
    requires NodeOk(n) && InOrder(n) && Requester(n, Between(n, y), Between(y, n)) && jfc < |n.jfcs|
    ensures StillTrue(n, Poll(n, jfc, count, wireErr, flits, backstop), y)
  {
    hide InOrder, Requester, Harvest, Take;
    PollTrue(n, Between(n, y), Between(y, n), jfc, count, wireErr, flits, backstop);
    HarvestSame(n, wireErr, flits, backstop);
  }

  lemma WiresTrue(s: Side, step: Step, l: Ledger, r: Ledger)
    requires Enabled(s, step) && AllHonest(s.tx, l, r)
    requires PosterTrue(s.node.poster, l, r) && HonestOption(s.node.reply, l, r)
    ensures AllHonest(Do(s, step).tx, l, r)
    ensures Do(s, step).rx == s.rx || (s.rx != [] && Do(s, step).rx == s.rx[1..])
  {
    hide Honest, DataCb, Poll, Record, SendRefused, Build, Check;
  }

  lemma StepSound(s: Side, step: Step, y: Node)
    requires Enabled(s, step) && Sound(s, y)
    requires |Do(s, step).node.built| <= WORD32 - 1
    ensures Sound(Do(s, step), y)
  {
    StepTrue(s, step, y);
    StepInOrder(s, step);
    var s' := Do(s, step);
    var l, r, l', r' := Between(s.node, y), Between(y, s.node), Between(s'.node, y), Between(y, s'.node);
    StepWires(s, step, y, l, r, l', r');
    StepPeer(s, s'.node, y);
  }

  lemma StepPeer(s: Side, n': Node, y: Node)
    requires NodeOk(n') && Sound(s, y) && StillTrue(s.node, n', y)
    ensures Requester(y, Between(y, n'), Between(n', y))
  {
    hide InOrder, AllHonest, EntriesTrue, AcksTrue, JobsTrue, DonesTrue, PosterTrue, HonestOption, Live;
    LandingsGrow(Between(y, s.node), Between(y, n'));
    RequesterGrows(y, Between(y, s.node), Between(s.node, y), Between(y, n'), Between(n', y));
  }

  lemma StepWires(s: Side, step: Step, y: Node, l: Ledger, r: Ledger, l': Ledger, r': Ledger)
    requires Enabled(s, step) && Sound(s, y) && l == Between(s.node, y) && r == Between(y, s.node)
    requires Grows(l, l') && Grows(r, r')
    ensures AllHonest(Do(s, step).tx, l', r') && AllHonest(Do(s, step).rx, r', l')
  {
    hide Do, InOrder, EntriesTrue, AcksTrue, JobsTrue, DonesTrue, LandingsTrue, PosterTrue, HonestOption, Live, Honest, Grows;
    WiresTrue(s, step, l, r);
    AllHonestGrows(Do(s, step).tx, l, r, l', r');
    AllHonestGrows(s.rx, r, l, r', l');
  }
}
