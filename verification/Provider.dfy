/**
 One node of the Tier-S provider: the region table, the outstanding-WR ring of its jetty, the
 completion rings, and what each lock-protected stretch of code does to them.

 A node also keeps what has happened on it (jobs built and posted, completions delivered,
 copies made, reads served, responses landed; the status each WR found in its slot, which WRs were
 failed while outstanding, and which after they had completed). Nothing in the provider reads those
 fields.
 */
module Provider {
  import opened Words
  import opened GuestMemory
  import opened SideChannel
  import opened Rings

  const MAX_OUT := 4096
  const MAX_RECV := 256
  const REGIONS := 1024

  // Completion status codes. liburma's header, which numbers them, is not part of this model;
  // only that success is 0 and the others are not matters here.
  const REM_RESP_LEN_ERR: U32 := 5
  const REM_OPERATION_ERR: U32 := 7
  const REM_ACCESS_ABORT_ERR: U32 := 8
  const ACK_TIMEOUT_ERR: U32 := 9

  datatype Op = Write | WriteImm | Read | Send | SendImm | Atomic

  /** A work request: `local` is the source of a WRITE or SEND and the destination of a READ. */
  datatype Wr = Wr(op: Op, uctx: U64, local: U64, remote: U64, token: U32, len: U32)

  /** A WR with the request id it was given and the payload taken from memory when it was built. */
  datatype Job = Job(wr: Wr, req: U32, data: seq<Byte>)

  datatype Entry = Entry(uctx: U64, op: Op, len: U32, lva: U64, req: U32, waited: U32, status: U32)
  datatype Region = Region(va: U64, len: U64, token: U32, active: bool)
  datatype Ack = Ack(req: U32, status: U32, valid: bool)
  datatype Buffer = Buffer(va: U64, len: U32, uctx: U64)

  /** A completion record; `send` says whether its opcode field is SEND. */
  datatype Cr = Cr(status: U32, send: bool, len: U32, uctx: U64)

  /** A completion queue: its ring, all it was ever given (true: by a receive), all ever polled. */
  datatype Jfc = Jfc(ring: Ring<Cr>, placed: seq<(bool, Cr)>, polled: seq<Cr>)

  datatype Copy = Copy(req: U32, va: U64, token: U32, data: seq<Byte>)
  datatype Reading = Reading(req: U32, va: U64, token: U32, data: seq<Byte>)
  datatype Landing = Landing(req: U32, va: U64, data: seq<Byte>)

  /** Where the posting thread is inside ou_post_one. */
  datatype Poster = Idle | Checked(wr: Wr) | Built(job: Job, frame: Option<Frame>) | Recorded(frame: Option<Frame>)

  datatype Node = Node(
    mem: map<nat, Byte>, regions: seq<Region>,
    out: Ring<Entry>, acks: seq<Ack>, reqSeq: U32,
    jfcs: seq<Jfc>, sendJfc: nat, recvJfc: nat, rq: Ring<Buffer>,
    failed: bool, malformed: nat,
    poster: Poster, reply: Option<Frame>,
    built: seq<Job>, posted: seq<Job>, done: seq<Cr>,
    copied: seq<Copy>, served: seq<Reading>, landed: seq<Landing>,
    stale: seq<U32>, timedOut: set<nat>, late: set<nat>)

  predicate JfcOk(j: Jfc) {
    |j.ring.slots| == MAX_OUT && Ok(j.ring)
  }

  predicate NodeOk(n: Node) {
    && |n.regions| == REGIONS && |n.acks| == MAX_OUT
    && |n.out.slots| == MAX_OUT && Ok(n.out)
    && |n.rq.slots| == MAX_RECV && Ok(n.rq)
    && n.sendJfc < |n.jfcs| && n.recvJfc < |n.jfcs|
    && forall i :: 0 <= i < |n.jfcs| ==> JfcOk(n.jfcs[i])
  }

  // ---- regions ----

  predicate Grants(r: Region, va: nat, len: nat, token: U32) {
    && r.active && r.token == token && r.va <= va
    && va - r.va <= r.len && len <= r.len - (va - r.va)
  }

  /** Some active region with this token holds [va, va + len). */
  predicate RegionValid(regions: seq<Region>, va: nat, len: nat, token: U32) {
    exists i :: 0 <= i < |regions| && Grants(regions[i], va, len, token)
  }

  function Register(regions: seq<Region>, va: U64, len: U64, token: U32): (r: seq<Region>)
    ensures |r| == |regions|
  {
    var k := First(regions, (r: Region) => !r.active);
    if k < |regions| then regions[k := Region(va, len, token, true)] else regions
  }

  function Unregister(regions: seq<Region>, va: U64, token: U32): (r: seq<Region>)
    ensures |r| == |regions|
  {
    var k := First(regions, (r: Region) => r.active && r.va == va && r.token == token);
    if k < |regions| then regions[k := regions[k].(active := false)] else regions
  }

  // ---- inbound frames ----

  predicate AwaitsAck(e: Entry, req: U32) {
    e.req == req && e.op == Write
  }

  predicate AwaitsData(e: Entry, req: U32) {
    e.req == req && e.lva != 0
  }

  /** The k-th outstanding WR is answered with a status. */
  function Answered(out: Ring<Entry>, k: nat, status: U32): (out': Ring<Entry>)
    requires Ok(out) && k < Count(out)
    ensures Ok(out') && |out'.slots| == |out.slots|
  {
    Set(out, Slot(out, k), out.slots[Slot(out, k)].(status := status, req := 0))
  }

  function OnWriteRq(n: Node, va: U64, token: U32, len: U32, req: U32, data: seq<Byte>): (n': Node)
    requires NodeOk(n)
    ensures NodeOk(n')
  {
    if len <= |data| && RegionValid(n.regions, va, len, token) then
      n.(mem := Scatter(n.mem, Span(va, len), data[..len]),
         copied := n.copied + [Copy(req, va, token, data[..len])],
         reply := Some(WriteAck(req, 0)))
    else
      n.(reply := Some(WriteAck(req, REM_ACCESS_ABORT_ERR)))
  }

  function OnWriteAck(n: Node, req: U32, status: U32): (n': Node)
    requires NodeOk(n)
    ensures NodeOk(n')
  {
    var k := First(Live(n.out), (e: Entry) => AwaitsAck(e, req));
    if k < Count(n.out) then n.(out := Answered(n.out, k, status))
    else n.(acks := n.acks[req % MAX_OUT := Ack(req, status, true)])
  }

  function Placed(j: Jfc, recv: bool, cr: Cr): (j': Jfc)
    requires JfcOk(j)
    ensures JfcOk(j')
  {
    j.(ring := Push(j.ring, cr), placed := j.placed + [(recv, cr)])
  }

  function OnSend(n: Node, len: U32, data: seq<Byte>): (n': Node)
    requires NodeOk(n) && len <= |data|
    ensures NodeOk(n')
  {
    var jfc := n.jfcs[n.recvJfc];
    if n.rq.head != n.rq.tail && !Full(jfc.ring) then
      var b := n.rq.slots[n.rq.head];
      var cp: U32 := if len < b.len then len else b.len;
      n.(rq := Pop(n.rq),
         mem := if cp != 0 && b.va != 0 then Scatter(n.mem, Span(b.va, cp), data[..cp]) else n.mem,
         jfcs := n.jfcs[n.recvJfc := Placed(jfc, true, Cr(0, true, cp, b.uctx))])
    else n
  }

  /** What malloc gives while a READ is served: the whole response, an empty one, or nothing. */
  datatype Alloc = Whole | Empty | Nothing

  function OnReadRq(n: Node, va: U64, token: U32, len: U32, req: U32, alloc: Alloc): (n': Node)
    requires NodeOk(n)
    ensures NodeOk(n')
  {
    var ok := len <= MAX_BODY - 12 && RegionValid(n.regions, va, len, token);
    match alloc
    case Whole =>
      if ok then
        var data := Gather(n.mem, Span(va, len));
        n.(served := n.served + [Reading(req, va, token, data)], reply := Some(ReadRsp(req, len, 0, data)))
      else n.(reply := Some(ReadRsp(req, 0, REM_ACCESS_ABORT_ERR, [])))
    case Empty => n.(reply := Some(ReadRsp(req, 0, REM_OPERATION_ERR, [])))
    case Nothing => n
  }

  function OnReadRsp(n: Node, req: U32, len: U32, status: U32, data: seq<Byte>): (n': Node)
    requires NodeOk(n)
    ensures NodeOk(n')
  {
    var k := First(Live(n.out), (e: Entry) => AwaitsData(e, req));
    if k < Count(n.out) then
      var e := Live(n.out)[k];
      var status': U32 := if status == 0 && (len != e.len || len > |data|) then REM_RESP_LEN_ERR else status;
      var n1 := n.(out := Answered(n.out, k, status'));
      if status' == 0 then
        n1.(mem := Scatter(n.mem, Span(e.lva, len), data[..len]),
            landed := n.landed + [Landing(req, e.lva, data[..len])])
      else n1
    else n
  }

  function OnFrame(n: Node, f: Frame, alloc: Alloc): (n': Node)
    requires NodeOk(n) && (f.SendMsg? ==> f.len <= |f.data|)
    ensures NodeOk(n')
  {
    match f
    case WriteRq(va, token, len, req, data) => OnWriteRq(n, va, token, len, req, data)
    case WriteAck(req, status) => OnWriteAck(n, req, status)
    case SendMsg(_, len, data) => OnSend(n, len, data)
    case ReadRq(va, token, len, req, _) => OnReadRq(n, va, token, len, req, alloc)
    case ReadRsp(req, len, status, data) => OnReadRsp(n, req, len, status, data)
  }

  /** ou_data_cb on the raw bytes of a frame. */
  function DataCb(n: Node, tag: Byte, buf: seq<Byte>, alloc: Alloc): (n': Node)
    requires NodeOk(n)
    ensures NodeOk(n')
  {
    match Parse(tag, buf)
    case None => n.(malformed := n.malformed + 1)
    case Some(f) => OnFrame(n, f, alloc)
  }

  lemma DataCbIsOnFrame(n: Node, f: Frame, alloc: Alloc)
    requires NodeOk(n) && (f.SendMsg? ==> f.len <= |f.data|)
    ensures DataCb(n, Tag(f), Body(f), alloc) == OnFrame(n, f, alloc)
  {
    ParseBody(f);
  }

  // ---- posting ----

  function Check(n: Node, wr: Wr): (n': Node)
    requires NodeOk(n)
    ensures NodeOk(n')
  {
    if Full(n.out) then n else n.(poster := Checked(wr))
  }

  /** The length a WR is recorded with: an atomic moves one 64-bit word. */
  function JobLen(wr: Wr): U32 {
    if wr.op == Atomic then 8 else wr.len
  }

  /** Where response data goes: only a READ has a local destination. */
  function JobDest(wr: Wr): U64 {
    if wr.op == Read then wr.local else 0
  }

  predicate Numbered(op: Op) {
    op == Write || op == WriteImm || op == Read
  }

  /** Takes the next request id. */
  function Allocated(n: Node, job: Job): Node {
    n.(reqSeq := (n.reqSeq + 1) % WORD32, built := n.built + [job])
  }

  /** What building a WR comes to: the job that took a request id, if any, and where posting goes on. */
  datatype Plan = Plan(numbered: Option<Job>, next: Poster)

  /** Request id, payload and frame of a WR; Idle when it is refused, by then perhaps with an id spent. */
  function PlanWr(mem: map<nat, Byte>, req: U32, wr: Wr, dst: U32, cna: U32, alloc: bool): Plan {
    match wr.op
    case Write | WriteImm =>
      if wr.local == 0 || wr.len == 0 then Plan(None, Idle)
      else
        var job := Job(wr, req, Gather(mem, Span(wr.local, wr.len)));
        var frame := WriteRq(wr.remote, wr.token, wr.len, req, job.data);
        Plan(Some(job), if wr.len > MAX_BODY - 20 || !alloc then Idle else Built(job, Some(frame)))
    case Read =>
      var job := Job(wr, req, []);
      var frame := ReadRq(wr.remote, wr.token, wr.len, req, cna);
      var bad := wr.local == 0 || wr.len == 0 || wr.len > MAX_BODY - 12 || !alloc;
      Plan(Some(job), if bad then Idle else Built(job, Some(frame)))
    case Send | SendImm =>
      if wr.local == 0 || wr.len == 0 || wr.len > MAX_BODY - 8 || !alloc then Plan(None, Idle)
      else
        var job := Job(wr, 0, Gather(mem, Span(wr.local, wr.len)));
        Plan(None, Built(job, Some(SendMsg(dst, wr.len, job.data))))
    case Atomic => Plan(None, Built(Job(wr, 0, []), None))
  }

  function Build(n: Node, dst: U32, cna: U32, alloc: bool): (n': Node)
    requires NodeOk(n) && n.poster.Checked?
    ensures NodeOk(n')
  {
    var plan := PlanWr(n.mem, n.reqSeq, n.poster.wr, dst, cna, alloc);
    (if plan.numbered.Some? then Allocated(n, plan.numbered.value) else n).(poster := plan.next)
  }

  /** The pipeline took both flits or not; if it did the WR becomes outstanding. Its slot keeps the old status. */
  function Record(n: Node, submitted: bool): (n': Node)
    requires NodeOk(n) && n.poster.Built?
    ensures NodeOk(n')
  {
    if !submitted then n.(poster := Idle)
    else
      var job := n.poster.job;
      var stale := n.out.slots[n.out.tail].status;
      var e := Entry(job.wr.uctx, job.wr.op, JobLen(job.wr), JobDest(job.wr), job.req, 0, stale);
      n.(out := Push(n.out, e), posted := n.posted + [job], stale := n.stale + [stale],
         poster := Recorded(n.poster.frame))
  }

  /** The slot before the tail. */
  function LastSlot(out: Ring<Entry>): (i: nat)
    requires Ok(out) && |out.slots| == MAX_OUT
    ensures i < MAX_OUT && Next(i, MAX_OUT) == out.tail
  {
    (out.tail + MAX_OUT - 1) % MAX_OUT
  }

  /** A refused frame fails the WR just recorded. */
  function SendRefused(n: Node): (n': Node)
    requires NodeOk(n)
    ensures NodeOk(n')
  {
    var i := LastSlot(n.out);
    var n1 := n.(out := Set(n.out, i, n.out.slots[i].(status := ACK_TIMEOUT_ERR, req := 0)), poster := Idle);
    if n.posted == [] then n1
    else if n.out.head != n.out.tail then n1.(timedOut := n.timedOut + {|n.posted| - 1})
    else n1.(late := n.late + {|n.posted| - 1})
  }

  function PostRecv(n: Node, b: Buffer): (n': Node)
    requires NodeOk(n)
    ensures NodeOk(n')
  {
    if Full(n.rq) then n else n.(rq := Push(n.rq, b))
  }

  // ---- polling ----

  /** A recorded ack for this entry that came when the entry was not outstanding. */
  predicate AckWaiting(n: Node, e: Entry)
    requires NodeOk(n)
  {
    e.op == Write && e.req != 0 && n.acks[e.req % MAX_OUT].valid && n.acks[e.req % MAX_OUT].req == e.req
  }

  /** The oldest outstanding WR after wire errors and early acks are accounted for. */
  function Settle(n: Node, wireErr: bool): (n': Node)
    requires NodeOk(n)
    ensures NodeOk(n') && n'.jfcs == n.jfcs && n'.sendJfc == n.sendJfc
    ensures n'.out.head == n.out.head && n'.out.tail == n.out.tail
  {
    var e0 := n.out.slots[n.out.head];
    var e := if wireErr then e0.(status := ACK_TIMEOUT_ERR, req := 0) else e0;
    if AckWaiting(n, e) then
      var i := e.req % MAX_OUT;
      n.(out := Set(n.out, n.out.head, e.(status := n.acks[i].status, req := 0)),
         acks := n.acks[i := n.acks[i].(valid := false)])
    else
      n.(out := Set(n.out, n.out.head, e), timedOut := if wireErr then n.timedOut + {|n.done|} else n.timedOut)
  }

  predicate Unanswered(e: Entry) {
    (e.op == Read || e.op == Write) && e.req != 0
  }

  function Waited(n: Node): (n': Node)
    requires NodeOk(n)
    ensures NodeOk(n') && n'.jfcs == n.jfcs && n'.sendJfc == n.sendJfc
    ensures n'.out.head == n.out.head && n'.out.tail == n.out.tail
  {
    var e := n.out.slots[n.out.head];
    n.(out := Set(n.out, n.out.head, e.(waited := (e.waited + 1) % WORD32)))
  }

  function Completion(e: Entry): Cr {
    Cr(e.status, e.op == Send, e.len, e.uctx)
  }

  /** The oldest outstanding WR moves to the send JFC. */
  function Retire(n: Node): (n': Node)
    requires NodeOk(n)
    ensures NodeOk(n') && |n'.jfcs| == |n.jfcs|
  {
    var cr := Completion(n.out.slots[n.out.head]);
    n.(jfcs := n.jfcs[n.sendJfc := Placed(n.jfcs[n.sendJfc], false, cr)], out := Pop(n.out), done := n.done + [cr])
  }

  /** The completion loop of ou_poll_jfc: flits is the number of pipeline completion flits in hand. */
  function Harvest(n: Node, wireErr: bool, flits: nat, backstop: nat): (n': Node)
    requires NodeOk(n)
    ensures NodeOk(n') && |n'.jfcs| == |n.jfcs|
    decreases Count(n.out)
  {
    if n.out.head == n.out.tail then n
    else
      var n1 := Settle(n, wireErr);
      if Unanswered(n1.out.slots[n1.out.head]) then n1
      else
        var waits := !wireErr && flits == 0;
        var n2 := if waits then Waited(n1) else n1;
        if waits && n2.out.slots[n2.out.head].waited <= backstop then n2
        else if Full(n2.jfcs[n2.sendJfc].ring) then n2
        else Harvest(Retire(n2), wireErr, if flits > 0 then flits - 1 else 0, backstop)
  }

  function Take(j: Jfc, count: int): (j': Jfc)
    requires JfcOk(j)
    ensures JfcOk(j')
    decreases Count(j.ring)
  {
    if count <= 0 || j.ring.head == j.ring.tail then j
    else Take(j.(ring := Pop(j.ring), polled := j.polled + [j.ring.slots[j.ring.head]]), count - 1)
  }

  function Poll(n: Node, jfc: nat, count: int, wireErr: bool, flits: nat, backstop: nat): (n': Node)
    requires NodeOk(n) && jfc < |n.jfcs|
    ensures NodeOk(n')
  {
    var n1 := Harvest(n, wireErr, flits, backstop);
    n1.(jfcs := n1.jfcs[jfc := Take(n1.jfcs[jfc], count)])
  }

  // ---- steps ----

  /** What data_send did with a frame: no (queue full or wire failed), yes, or yes after the wire had failed. */
  datatype Sent = Refused | Accepted | Lost

  /** A step of the node's application, its posting thread, its background thread or its wire. */
  datatype Step =
    | CheckStep(wr: Wr)
    | BuildStep(dst: U32, cna: U32, room: bool)
    | RecordStep(submitted: bool)
    | SendStep(sent: Sent)
    | DeliverStep(alloc: Alloc)
    | ReplyStep(sent: Sent)
    | PollStep(jfc: nat, count: int, wireErr: bool, flits: nat, backstop: nat)
    | RecvStep(buffer: Buffer)
    | RegisterStep(va: U64, len: U64, token: U32)
    | UnregisterStep(va: U64, token: U32)
    | StoreStep(va: U64, data: seq<Byte>)
    | FailStep(shipped: nat)

  /** A node with the frames it sent that are still under way, and those under way to it. */
  datatype Side = Side(node: Node, tx: seq<Frame>, rx: seq<Frame>)

  predicate SentOk(failed: bool, sent: Sent) {
    (sent == Accepted ==> !failed) && (sent == Lost ==> failed)
  }

  predicate Enabled(s: Side, step: Step) {
    && NodeOk(s.node)
    && match step
       case CheckStep(_) => s.node.poster.Idle?
       case BuildStep(_, _, _) => s.node.poster.Checked?
       case RecordStep(_) => s.node.poster.Built?
       case SendStep(sent) => s.node.poster.Recorded? && SentOk(s.node.failed, sent)
       case DeliverStep(_) => s.node.reply.None? && s.rx != []
       case ReplyStep(sent) => s.node.reply.Some? && SentOk(s.node.failed, sent)
       case PollStep(jfc, _, wireErr, _, _) => jfc < |s.node.jfcs| && (wireErr ==> s.node.failed)
       case FailStep(shipped) => !s.node.failed && shipped <= |s.tx|
       case _ => true
  }

  function Appended(tx: seq<Frame>, f: Frame, sent: Sent): seq<Frame> {
    if sent == Accepted then tx + [f] else tx
  }

  function Do(s: Side, step: Step): (s': Side)
    requires Enabled(s, step)
    ensures NodeOk(s'.node)
  {
    hide Check, Build, DataCb, Poll, Scatter, Span, Register, Unregister, SendRefused, Record, PostRecv, Tag, Body;
    var n := s.node;
    match step
    case CheckStep(wr) => s.(node := Check(n, wr))
    case BuildStep(dst, cna, room) => s.(node := Build(n, dst, cna, room))
    case RecordStep(submitted) => s.(node := Record(n, submitted))
    case SendStep(sent) =>
      if n.poster.frame.None? then s.(node := n.(poster := Idle))
      else if sent == Refused then s.(node := SendRefused(n))
      else s.(node := n.(poster := Idle), tx := Appended(s.tx, n.poster.frame.value, sent))
    case DeliverStep(alloc) =>
      s.(node := DataCb(n, Tag(s.rx[0]), Body(s.rx[0]), alloc), rx := s.rx[1..])
    case ReplyStep(sent) =>
      s.(node := n.(reply := None), tx := Appended(s.tx, n.reply.value, sent))
    case PollStep(jfc, count, wireErr, flits, backstop) => s.(node := Poll(n, jfc, count, wireErr, flits, backstop))
    case RecvStep(b) => s.(node := PostRecv(n, b))
    case RegisterStep(va, len, token) => s.(node := n.(regions := Register(n.regions, va, len, token)))
    case UnregisterStep(va, token) => s.(node := n.(regions := Unregister(n.regions, va, token)))
    case StoreStep(va, data) => s.(node := n.(mem := Scatter(n.mem, Span(va, |data|), data)))
    case FailStep(shipped) => s.(node := n.(failed := true), tx := s.tx[..shipped])
  }
}
