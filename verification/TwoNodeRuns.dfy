/**
 Safety over whole runs of two providers: a successful WRITE or READ completion means that the
 bytes moved, earlier in the run.
 */
module TwoNodeRuns {
  import opened Words
  import opened GuestMemory
  import opened SideChannel
  import opened Rings
  import opened Provider
  import opened ProviderQueues
  import opened TwoNode

  datatype Who = A | B

  /** Two nodes, and the frames under way in each direction. */
  datatype Sys = Sys(a: Node, b: Node, ab: seq<Frame>, ba: seq<Frame>)

  function Other(who: Who): Who {
    if who == A then B else A
  }

  function NodeOf(s: Sys, who: Who): Node {
    if who == A then s.a else s.b
  }

  function SideOf(s: Sys, who: Who): Side {
    if who == A then Side(s.a, s.ab, s.ba) else Side(s.b, s.ba, s.ab)
  }

  function WithSide(s: Sys, who: Who, x: Side): Sys {
    if who == A then Sys(x.node, s.b, x.tx, x.rx) else Sys(s.a, x.node, x.rx, x.tx)
  }

  ghost predicate Next(s: Sys, s': Sys, step: (Who, Step)) {
    Enabled(SideOf(s, step.0), step.1) && s' == WithSide(s, step.0, Do(SideOf(s, step.0), step.1))
  }

  /** A node as created: zeroed rings, empty queues, no ack, the first request id still to be given. */
  ghost predicate Fresh(n: Node) {
    && NodeOk(n) && n.reqSeq == 1 && n.poster.Idle? && n.reply.None?
    && n.out.head == n.out.tail == 0 && (forall i :: 0 <= i < |n.out.slots| ==> n.out.slots[i].status == 0)
    && n.built == [] && n.posted == [] && n.done == []
    && n.copied == [] && n.served == [] && n.landed == []
    && n.stale == [] && n.timedOut == {} && n.late == {}
    && (forall i :: 0 <= i < |n.acks| ==> !n.acks[i].valid)
    && (forall i :: 0 <= i < |n.jfcs| ==>
          n.jfcs[i].ring.head == n.jfcs[i].ring.tail && n.jfcs[i].placed == [] && n.jfcs[i].polled == [])
  }

  /**
   A run from two fresh nodes, in which neither node gives out more than 2^32 - 1 request ids:
   the next one would be 0, which stands for "answered".
   */
  ghost predicate IsRun(states: seq<Sys>, steps: seq<(Who, Step)>) {
    && |states| == |steps| + 1
    && Fresh(states[0].a) && Fresh(states[0].b) && states[0].ab == [] && states[0].ba == []
    && (forall i :: 0 <= i < |steps| ==> Next(states[i], states[i + 1], steps[i]))
    && (forall i :: 0 <= i < |states| ==> |states[i].a.built| < WORD32 && |states[i].b.built| < WORD32)
  }

  ghost predicate SoundFor(s: Sys, who: Who) {
    Sound(SideOf(s, who), NodeOf(s, Other(who)))
  }

  lemma SoundBoth(s: Sys, who: Who)
    requires SoundFor(s, who)
    ensures SoundFor(s, Other(who))
  {
    hide InOrder, Requester, AllHonest;
  }

  lemma FreshSound(s: Sys)
    requires Fresh(s.a) && Fresh(s.b) && s.ab == [] && s.ba == []
    ensures SoundFor(s, A)
  {
    FreshInOrder(s.a);
    FreshInOrder(s.b);
    FreshRequester(s.a, s.b);
    FreshRequester(s.b, s.a);
    hide InOrder, Requester;
  }

  lemma FreshInOrder(n: Node)
    requires Fresh(n)
    ensures InOrder(n)
  {
    forall i | 0 <= i < |n.jfcs| ensures Lossless(n.jfcs[i]) && Sends(n.jfcs[i].placed) == [] {
      assert Live(n.jfcs[i].ring) == [];
    }
  }

  lemma FreshRequester(n: Node, y: Node)
    requires Fresh(n) && Fresh(y)
    ensures Requester(n, Between(n, y), Between(y, n))
  {
    assert Live(n.out) == [];
  }

  lemma {:induction false} RunSound(states: seq<Sys>, steps: seq<(Who, Step)>, k: nat, who: Who)
    requires IsRun(states, steps) && k < |states|
    ensures SoundFor(states[k], who)
    decreases k, who
  {
    hide Sound, Enabled, Do, Fresh;
    if k == 0 {
      FreshSound(states[0]);
      SoundBoth(states[0], A);
    } else {
      var step := steps[k - 1];
      assert Next(states[k - 1], states[k], step);
      RunSound(states, steps, k - 1, step.0);
      StepSound(SideOf(states[k - 1], step.0), step.1, NodeOf(states[k - 1], Other(step.0)));
      if who != step.0 {
        SoundBoth(states[k], step.0);
      }
    }
  }

  // ---- when the logs grow ----

  /** This delivery found an active region with the right token and copied exactly these bytes into it. */
  ghost predicate Copies(x: Side, x': Side, c: Copy) {
    && x.rx != [] && x.rx[0].WriteRq? && x.rx[0].req == c.req
    && RegionValid(x.node.regions, c.va, |c.data|, c.token)
    && x'.node.mem == Scatter(x.node.mem, Span(c.va, |c.data|), c.data)
    && Gather(x'.node.mem, Span(c.va, |c.data|)) == c.data
  }

  /** This delivery read these bytes from memory, in an active region with the right token. */
  ghost predicate Serves(x: Side, v: Reading) {
    && x.rx != [] && x.rx[0].ReadRq? && x.rx[0].req == v.req
    && RegionValid(x.node.regions, v.va, |v.data|, v.token)
    && v.data == Gather(x.node.mem, Span(v.va, |v.data|))
  }

  /** This delivery stored these bytes. */
  ghost predicate Lands(x: Side, x': Side, v: Landing) {
    && x.rx != [] && x.rx[0].ReadRsp? && x.rx[0].req == v.req
    && x'.node.mem == Scatter(x.node.mem, Span(v.va, |v.data|), v.data)
    && Gather(x'.node.mem, Span(v.va, |v.data|)) == v.data
  }

  /** This step took the payload of a WRITE from memory. */
  ghost predicate Takes(x: Side, job: Job) {
    && x.node.poster == Checked(job.wr)
    && (job.wr.op == Write || job.wr.op == WriteImm ==> job.data == Gather(x.node.mem, Span(job.wr.local, job.wr.len)))
  }

  ghost predicate LogsExplained(x: Side, x': Side) {
    && x.node.built <= x'.node.built
    && (forall job :: job in x'.node.built && job !in x.node.built ==> Takes(x, job))
    && (forall c :: c in x'.node.copied && c !in x.node.copied ==> Copies(x, x', c))
    && (forall v :: v in x'.node.served && v !in x.node.served ==> Serves(x, v))
    && (forall v :: v in x'.node.landed && v !in x.node.landed ==> Lands(x, x', v))
  }

  lemma FrameExplained(x: Side, x': Side, alloc: Alloc)
    requires NodeOk(x.node) && x.rx != [] && (x.rx[0].SendMsg? ==> x.rx[0].len <= |x.rx[0].data|)
    requires x'.node == OnFrame(x.node, x.rx[0], alloc)
    ensures LogsExplained(x, x')
  {
    hide Scatter, Gather, Live, First, RegionValid;
    var n, n', f := x.node, x'.node, x.rx[0];
    match f
    case WriteRq(va, token, len, req, data) =>
      if len <= |data| {
        GatherScatter(n.mem, Span(va, len), data[..len]);
      }
    case ReadRsp(req, len, status, data) =>
      if n'.landed != n.landed {
        var v := n'.landed[|n.landed|];
        GatherScatter(n.mem, Span(v.va, len), data[..len]);
      }
    case _ =>
  }

  lemma StepExplained(x: Side, step: Step)
    requires Enabled(x, step)
    requires x.rx != [] && x.rx[0].SendMsg? ==> x.rx[0].len <= |x.rx[0].data|
    ensures LogsExplained(x, Do(x, step))
  {
    hide LogsExplained, DataCb, OnFrame, Poll, Record, SendRefused, Build, Check, Tag, Body;
    var x' := Do(x, step);
    match step
    case DeliverStep(alloc) =>
      DataCbIsOnFrame(x.node, x.rx[0], alloc);
      FrameExplained(x, x', alloc);
    case BuildStep(dst, cna, room) =>
      BuildExplained(x, x', dst, cna, room);
    case RecordStep(submitted) =>
      RecordSame(x.node, submitted);
      NothingNew(x, x');
    case SendStep(_) =>
      RefusedSame(x.node);
      NothingNew(x, x');
    case PollStep(jfc, count, wireErr, flits, backstop) =>
      PollSame(x.node, jfc, count, wireErr, flits, backstop);
      NothingNew(x, x');
    case CheckStep(wr) =>
      CheckSame(x.node, wr);
      NothingNew(x, x');
    case _ => NothingNew(x, x');
  }

  lemma BuildExplained(x: Side, x': Side, dst: U32, cna: U32, room: bool)
    requires NodeOk(x.node) && x.node.poster.Checked? && x'.node == Build(x.node, dst, cna, room)
    ensures LogsExplained(x, x')
  {
    hide NodeOk, PlanWr, Gather, Span;
    var n := x.node;
    PlanData(n.mem, n.reqSeq, n.poster.wr, dst, cna, room);
  }

  lemma PlanData(mem: map<nat, Byte>, req: U32, wr: Wr, dst: U32, cna: U32, room: bool)
    ensures var plan := PlanWr(mem, req, wr, dst, cna, room);
      plan.numbered.Some? ==>
        && plan.numbered.value.wr == wr
        && (wr.op == Write || wr.op == WriteImm ==> plan.numbered.value.data == Gather(mem, Span(wr.local, wr.len)))
  {
  }

  lemma NothingNew(x: Side, x': Side)
    requires x.node.built == x'.node.built
    requires x'.node.copied == x.node.copied && x'.node.served == x.node.served && x'.node.landed == x.node.landed
    ensures LogsExplained(x, x')
  {
  }

  lemma CheckSame(n: Node, wr: Wr)
    requires NodeOk(n)
    ensures SameLogs(n, Check(n, wr))
  {
  }

  lemma PollSame(n: Node, jfc: nat, count: int, wireErr: bool, flits: nat, backstop: nat)
    requires NodeOk(n) && jfc < |n.jfcs|
    ensures SameLogs(n, Poll(n, jfc, count, wireErr, flits, backstop))
  {
    hide Harvest, Take;
    HarvestSame(n, wireErr, flits, backstop);
  }

  /** Between two states of a run, a node's new log entries are explained by that one step. */
  lemma RunExplained(states: seq<Sys>, steps: seq<(Who, Step)>, t: nat, who: Who)
    requires IsRun(states, steps) && t < |steps|
    ensures LogsExplained(SideOf(states[t], who), SideOf(states[t + 1], who))
  {
    hide LogsExplained, Do, Enabled, InOrder, Requester, Honest, Fresh;
    assert Next(states[t], states[t + 1], steps[t]);
    RunSound(states, steps, t, who);
    var x := SideOf(states[t], who);
    if steps[t].0 == who {
      if x.rx != [] {
        HonestSend(x.rx[0], Between(NodeOf(states[t], Other(who)), x.node), Between(x.node, NodeOf(states[t], Other(who))));
      }
      StepExplained(x, steps[t].1);
    } else {
      NothingNew(x, SideOf(states[t + 1], who));
    }
  }

  lemma HonestSend(f: Frame, l: Ledger, r: Ledger)
    requires Honest(f, l, r)
    ensures f.SendMsg? ==> f.len <= |f.data|
  {
  }

  // ---- every log entry has its moment ----

  lemma {:induction false} CopyMoment(states: seq<Sys>, steps: seq<(Who, Step)>, k: nat, who: Who, c: Copy) returns (t: nat)
    requires IsRun(states, steps) && k < |states| && c in NodeOf(states[k], who).copied
    ensures t < k && steps[t].0 == who && Copies(SideOf(states[t], who), SideOf(states[t + 1], who), c)
  {
    hide Copies, Enabled, Do;
    t := k - 1;
    assert Next(states[t], states[t + 1], steps[t]);
    RunExplained(states, steps, t, who);
    if c in NodeOf(states[t], who).copied {
      t := CopyMoment(states, steps, t, who, c);
    }
  }

  lemma {:induction false} ServeMoment(states: seq<Sys>, steps: seq<(Who, Step)>, k: nat, who: Who, v: Reading) returns (t: nat)
    requires IsRun(states, steps) && k < |states| && v in NodeOf(states[k], who).served
    ensures t < k && steps[t].0 == who && Serves(SideOf(states[t], who), v)
  {
    hide Serves, Enabled, Do;
    t := k - 1;
    assert Next(states[t], states[t + 1], steps[t]);
    RunExplained(states, steps, t, who);
    if v in NodeOf(states[t], who).served {
      t := ServeMoment(states, steps, t, who, v);
    }
  }

  lemma {:induction false} LandMoment(states: seq<Sys>, steps: seq<(Who, Step)>, k: nat, who: Who, v: Landing) returns (t: nat)
    requires IsRun(states, steps) && k < |states| && v in NodeOf(states[k], who).landed
    ensures t < k && steps[t].0 == who && Lands(SideOf(states[t], who), SideOf(states[t + 1], who), v)
    ensures v in NodeOf(states[t + 1], who).landed
  {
    hide Lands, Enabled, Do;
    t := k - 1;
    assert Next(states[t], states[t + 1], steps[t]);
    RunExplained(states, steps, t, who);
    if v in NodeOf(states[t], who).landed {
      t := LandMoment(states, steps, t, who, v);
    }
  }

  lemma {:induction false} TakeMoment(states: seq<Sys>, steps: seq<(Who, Step)>, k: nat, who: Who, job: Job) returns (t: nat)
    requires IsRun(states, steps) && k < |states| && job in NodeOf(states[k], who).built
    ensures t < k && Takes(SideOf(states[t], who), job)
  {
    hide Takes, Next;
    t := k - 1;
    RunExplained(states, steps, t, who);
    if job in NodeOf(states[t], who).built {
      t := TakeMoment(states, steps, t, who, job);
    }
  }

  lemma {:induction false} BuiltGrows(states: seq<Sys>, steps: seq<(Who, Step)>, i: nat, k: nat, who: Who)
    requires IsRun(states, steps) && i <= k < |states|
    ensures NodeOf(states[i], who).built <= NodeOf(states[k], who).built
  {
    hide Takes, Next;
    if i < k {
      BuiltGrows(states, steps, i, k - 1, who);
      RunExplained(states, steps, k - 1, who);
    }
  }

  // ---- what a successful completion means ----

  /** The completion of the j-th posted WR is in, and it reports success. */
  predicate Succeeded(n: Node, j: nat, op: Op) {
    j < |n.done| && j < |n.posted| && n.posted[j].wr.op == op && n.done[j].status == 0
  }

  lemma SuccessFulfilled(states: seq<Sys>, steps: seq<(Who, Step)>, k: nat, who: Who, j: nat, op: Op)
    requires IsRun(states, steps) && k < |states| && Succeeded(NodeOf(states[k], who), j, op)
    ensures var n := NodeOf(states[k], who);
      var l := Between(n, NodeOf(states[k], Other(who)));
      Fulfilled(n.posted[j], l) && JobTrue(n.posted[j], l)
  {
    hide InOrder, AllHonest, EntriesTrue, AcksTrue, JobTrue, Fulfilled, LandingsTrue, PosterTrue, HonestOption, Live, IsRun;
    RunSound(states, steps, k, who);
    var n := NodeOf(states[k], who);
    assert DoneTrue(n.done[j], n.posted[j], Between(n, NodeOf(states[k], Other(who))));
  }

  /**
   Before state k, the peer copied exactly the bytes of the j-th posted WR into an active region
   with the right token; those bytes were in the source buffer when the WR was built.
   */
  ghost predicate BytesArrived(states: seq<Sys>, k: nat, who: Who, j: nat)
    requires k < |states| && j < |NodeOf(states[k], who).posted|
  {
    var job := NodeOf(states[k], who).posted[j];
    exists t0, t :: 0 <= t0 < t < k && Takes(SideOf(states[t0], who), job)
      && Copies(SideOf(states[t], Other(who)), SideOf(states[t + 1], Other(who)),
                Copy(job.req, job.wr.remote, job.wr.token, job.data))
  }

  /** A WRITE completes with success only if its bytes have arrived. */
  lemma WriteSafety(states: seq<Sys>, steps: seq<(Who, Step)>, k: nat, who: Who, j: nat)
    requires IsRun(states, steps) && k < |states| && Succeeded(NodeOf(states[k], who), j, Write)
    ensures BytesArrived(states, k, who, j)
  {
    hide IsRun, Takes, Copies;
    SuccessFulfilled(states, steps, k, who, j, Write);
    var job := NodeOf(states[k], who).posted[j];
    var c := Copy(job.req, job.wr.remote, job.wr.token, job.data);
    var t := CopyMoment(states, steps, k, Other(who), c);
    RequestKnown(states, steps, t, k, who, job, c);
    var t0 := TakeMoment(states, steps, t, who, job);
  }

  /** The request that made a copy was the one with that id, so it had been built by then. */
  lemma RequestKnown(states: seq<Sys>, steps: seq<(Who, Step)>, t: nat, k: nat, who: Who, job: Job, c: Copy)
    requires IsRun(states, steps) && t < k < |states| && c.req == job.req
    requires Copies(SideOf(states[t], Other(who)), SideOf(states[t + 1], Other(who)), c)
    requires 1 <= job.req <= |NodeOf(states[k], who).built| && NodeOf(states[k], who).built[job.req - 1] == job
    ensures job in NodeOf(states[t], who).built
  {
    hide IsRun, InOrder, Requester;
    RunSound(states, steps, t, who);
    BuiltGrows(states, steps, t, k, who);
    assert Honest(SideOf(states[t], who).tx[0], Between(NodeOf(states[t], who), NodeOf(states[t], Other(who))),
                  Between(NodeOf(states[t], Other(who)), NodeOf(states[t], who)));
    assert NodeOf(states[t], who).built[job.req - 1] == job;
  }

  /**
   A READ completes with success only if, before, its buffer received bytes that the peer's
   memory had held, in an active region with the right token, when the peer served that request.
   */
  lemma ReadSafety(states: seq<Sys>, steps: seq<(Who, Step)>, k: nat, who: Who, j: nat)
    requires IsRun(states, steps) && k < |states| && Succeeded(NodeOf(states[k], who), j, Read)
    ensures var job := NodeOf(states[k], who).posted[j];
      exists t1, t2, data :: 0 <= t1 < t2 < k && |data| == job.wr.len
        && Serves(SideOf(states[t1], Other(who)), Reading(job.req, job.wr.remote, job.wr.token, data))
        && Lands(SideOf(states[t2], who), SideOf(states[t2 + 1], who), Landing(job.req, job.wr.local, data))
  {
    hide IsRun, Serves, Lands;
    SuccessFulfilled(states, steps, k, who, j, Read);
    var n := NodeOf(states[k], who);
    var job, l := n.posted[j], Between(n, NodeOf(states[k], Other(who)));
    var data :| Served(job, data, l) && Landing(job.req, job.wr.local, data) in l.landed;
    var t2 := LandMoment(states, steps, k, who, Landing(job.req, job.wr.local, data));
    LandingServed(states, steps, t2 + 1, k, who, job, data);
    var t1 := ServeMoment(states, steps, t2 + 1, Other(who), Reading(job.req, job.wr.remote, job.wr.token, data));
    assert t1 != t2;
  }

  lemma LandingServed(states: seq<Sys>, steps: seq<(Who, Step)>, t: nat, k: nat, who: Who, job: Job, data: seq<Byte>)
    requires IsRun(states, steps) && t <= k < |states|
    requires JobTrue(job, Between(NodeOf(states[k], who), NodeOf(states[k], Other(who)))) && job.wr.op == Read
    requires Landing(job.req, job.wr.local, data) in NodeOf(states[t], who).landed
    ensures Reading(job.req, job.wr.remote, job.wr.token, data) in NodeOf(states[t], Other(who)).served
  {
    hide IsRun, InOrder, EntriesTrue, AcksTrue, DonesTrue, PosterTrue, HonestOption, Live, AllHonest;
    RunSound(states, steps, t, who);
    BuiltGrows(states, steps, t, k, who);
    var l := Between(NodeOf(states[t], who), NodeOf(states[t], Other(who)));
    var i :| 0 <= i < |l.landed| && l.landed[i] == Landing(job.req, job.wr.local, data);
    assert LandingTrue(l.landed[i], l);
  }

  // ---- exactly once, in order ----

  /**
   In every state of a run, the send completions put on the send JFC are those of the posted WRs
   in order, one each; the outstanding ring holds exactly the rest; and every completion ring,
   shared with receive completions or not, holds exactly what was put on it and not yet polled.
   */
  lemma ExactlyOnceInOrder(states: seq<Sys>, steps: seq<(Who, Step)>, k: nat, who: Who)
    requires IsRun(states, steps) && k < |states|
    ensures var n := NodeOf(states[k], who);
      && NodeOk(n) && Sends(n.jfcs[n.sendJfc].placed) == n.done
      && |n.done| + |Live(n.out)| == |n.posted|
      && (forall j :: 0 <= j < |n.done| ==> Completes(n.done[j], n.posted[j]))
      && (forall j :: 0 <= j < |Live(n.out)| ==> Matches(Live(n.out)[j], n.posted[|n.done| + j]))
      && (forall i :: 0 <= i < |n.jfcs| ==> Records(n.jfcs[i].placed) == n.jfcs[i].polled + Live(n.jfcs[i].ring))
  {
    hide Requester, AllHonest, IsRun;
    RunSound(states, steps, k, who);
    var n := NodeOf(states[k], who);
    assert forall i :: 0 <= i < |n.jfcs| ==> Lossless(n.jfcs[i]);
  }

  /** What was posted, completed, put on a JFC or polled stays so. */
  lemma HistoryGrows(states: seq<Sys>, steps: seq<(Who, Step)>, t: nat, who: Who)
    requires IsRun(states, steps) && t < |steps|
    ensures Extends(NodeOf(states[t], who), NodeOf(states[t + 1], who))
  {
    hide Extends, Do, Enabled, Fresh;
    assert Next(states[t], states[t + 1], steps[t]);
    ExtendsSelf(NodeOf(states[t], who));
    if steps[t].0 == who {
      StepExtends(SideOf(states[t], who), steps[t].1);
    }
  }
}
