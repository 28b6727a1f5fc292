/**
 What a provider does for its peer, in every run: each request that a registered region allows is
 carried out and no other, each answer reaches the request it belongs to, and each message fills
 the oldest receive buffer.
 */
module Service {
  import opened Words
  import opened GuestMemory
  import opened SideChannel
  import opened Rings
  import opened Provider
  import opened ProviderQueues
  import opened TwoNode
  import opened TwoNodeRuns

  // ---- regions ----

  predicate Holds(r: Region, va: nat, len: nat, token: U32) {
    r.active && r.token == token && r.va <= va && va + len <= r.va + r.len
  }

  /** Some active region of this token holds [va, va + len). */
  ghost predicate Held(regions: seq<Region>, va: nat, len: nat, token: U32) {
    exists i :: 0 <= i < |regions| && Holds(regions[i], va, len, token)
  }

  lemma HeldIsValid(regions: seq<Region>, va: nat, len: nat, token: U32)
    ensures RegionValid(regions, va, len, token) <==> Held(regions, va, len, token)
  {
    if RegionValid(regions, va, len, token) {
      var i :| 0 <= i < |regions| && Grants(regions[i], va, len, token);
      assert Holds(regions[i], va, len, token);
    }
    if Held(regions, va, len, token) {
      var i :| 0 <= i < |regions| && Holds(regions[i], va, len, token);
      assert Grants(regions[i], va, len, token);
    }
  }

  /** A registration makes its range accessible, takes no access away and grants no other; a full table refuses it. */
  lemma RegisterGrants(regions: seq<Region>, va: U64, len: U64, token: U32, a: nat, l: nat, t: U32)
    ensures var regions' := Register(regions, va, len, token);
      if exists i :: 0 <= i < |regions| && !regions[i].active
      then Held(regions', a, l, t) <==> Held(regions, a, l, t) || Holds(Region(va, len, token, true), a, l, t)
      else regions' == regions
  {
    var regions', k := Register(regions, va, len, token), First(regions, (r: Region) => !r.active);
    if k < |regions| {
      assert regions'[k] == Region(va, len, token, true);
      if Held(regions, a, l, t) {
        var i :| 0 <= i < |regions| && Holds(regions[i], a, l, t);
        assert Holds(regions'[i], a, l, t);
      }
      if Held(regions', a, l, t) {
        var i :| 0 <= i < |regions'| && Holds(regions'[i], a, l, t);
        assert i != k ==> Holds(regions[i], a, l, t);
      }
    }
  }

  /** The first active entry of this address and token. */
  ghost predicate Matches(regions: seq<Region>, va: U64, token: U32, k: nat) {
    && k < |regions| && regions[k].active && regions[k].va == va && regions[k].token == token
    && forall i :: 0 <= i < k ==> !(regions[i].active && regions[i].va == va && regions[i].token == token)
  }

  /** After an entry is released nothing is granted through it; every other entry grants what it did. */
  lemma UnregisterRevokes(regions: seq<Region>, va: U64, token: U32, k: nat, a: nat, l: nat, t: U32)
    requires Matches(regions, va, token, k)
    ensures var regions' := Unregister(regions, va, token);
      && |regions'| == |regions| && !Holds(regions'[k], a, l, t)
      && (forall i :: 0 <= i < |regions| && i != k ==> regions'[i] == regions[i])
      && (Held(regions', a, l, t) <==> exists i :: 0 <= i < |regions| && i != k && Holds(regions[i], a, l, t))
  {
    var regions' := Unregister(regions, va, token);
    assert First(regions, (r: Region) => r.active && r.va == va && r.token == token) == k;
    if Held(regions', a, l, t) {
      var i :| 0 <= i < |regions'| && Holds(regions'[i], a, l, t);
      assert i != k && Holds(regions[i], a, l, t);
    }
    if exists i :: 0 <= i < |regions| && i != k && Holds(regions[i], a, l, t) {
      var i :| 0 <= i < |regions| && i != k && Holds(regions[i], a, l, t);
      assert Holds(regions'[i], a, l, t);
    }
  }

  // ---- memory ----

  /** The bytes from va on are these, and no other byte has changed. */
  ghost predicate Stored(mem: map<nat, Byte>, mem': map<nat, Byte>, va: nat, data: seq<Byte>) {
    && (forall i :: 0 <= i < |data| ==> Peek(mem', va + i) == data[i])
    && (forall a: nat :: a < va || va + |data| <= a ==> Peek(mem', a) == Peek(mem, a))
  }

  lemma ScatterStores(mem: map<nat, Byte>, va: nat, data: seq<Byte>)
    ensures Stored(mem, Scatter(mem, Span(va, |data|), data), va, data)
  {
    var pas := Span(va, |data|);
    forall i | 0 <= i < |data| ensures Peek(Scatter(mem, pas, data), va + i) == data[i] {
      ScatterInside(mem, pas, data, i);
    }
    forall a: nat | a < va || va + |data| <= a ensures Peek(Scatter(mem, pas, data), a) == Peek(mem, a) {
      ScatterOutside(mem, pas, data, a);
    }
  }

  /** The len bytes from va on. */
  function Loaded(mem: map<nat, Byte>, va: nat, len: nat): (data: seq<Byte>)
    ensures |data| == len && forall i :: 0 <= i < len ==> data[i] == Peek(mem, va + i)
  {
    seq<Byte>(len, i requires 0 <= i < len => Peek(mem, va + i))
  }

  lemma GatherLoads(mem: map<nat, Byte>, va: nat, len: nat)
    ensures Gather(mem, Span(va, len)) == Loaded(mem, va, len)
  {
  }

  // ---- deliveries of a run ----

  /** Step t of the run hands this frame to this node. */
  ghost predicate Delivers(states: seq<Sys>, steps: seq<(Who, Step)>, t: nat, who: Who, f: Frame, alloc: Alloc) {
    && IsRun(states, steps) && t < |steps| && steps[t] == (who, DeliverStep(alloc))
    && SideOf(states[t], who).rx != [] && SideOf(states[t], who).rx[0] == f
  }

  lemma DeliveryIsOnFrame(states: seq<Sys>, steps: seq<(Who, Step)>, t: nat, who: Who, f: Frame, alloc: Alloc)
    requires Delivers(states, steps, t, who, f, alloc)
    ensures t + 1 < |states| && NodeOk(NodeOf(states[t], who))
    ensures (f.SendMsg? ==> f.len <= |f.data|) && (f.WriteRq? ==> f.len == |f.data|)
    ensures NodeOf(states[t + 1], who) == OnFrame(NodeOf(states[t], who), f, alloc)
    ensures NodeOf(states[t + 1], Other(who)) == NodeOf(states[t], Other(who))
    ensures SideOf(states[t + 1], who).rx == SideOf(states[t], who).rx[1..]
    ensures SideOf(states[t + 1], who).tx == SideOf(states[t], who).tx
  {
    hide InOrder, Requester, Fresh, OnFrame, Tag, Body, DataCb;
    assert TwoNodeRuns.Next(states[t], states[t + 1], steps[t]);
    RunSound(states, steps, t, who);
    var x, y := SideOf(states[t], who), NodeOf(states[t], Other(who));
    assert Honest(f, Between(y, x.node), Between(x.node, y));
    DataCbIsOnFrame(x.node, f, alloc);
  }

  /**
   A WRITE request is carried out exactly if an active region of its token holds its range: its
   bytes are in memory and no other byte has changed, the copy is on record and the ack says
   success. Otherwise memory is as it was and the ack says failure. Nothing else happens.
   */
  lemma WriteServed(states: seq<Sys>, steps: seq<(Who, Step)>, t: nat, who: Who, f: Frame, alloc: Alloc)
    requires f.WriteRq? && Delivers(states, steps, t, who, f, alloc)
    ensures var n, n' := NodeOf(states[t], who), NodeOf(states[t + 1], who);
      && n' == n.(mem := n'.mem, copied := n'.copied, reply := n'.reply)
      && n'.reply.Some? && n'.reply.value.WriteAck? && n'.reply.value.req == f.req
      && (Held(n.regions, f.va, |f.data|, f.token) <==> n'.reply.value.status == 0)
      && if Held(n.regions, f.va, |f.data|, f.token)
         then Stored(n.mem, n'.mem, f.va, f.data) && n'.copied == n.copied + [Copy(f.req, f.va, f.token, f.data)]
         else n'.mem == n.mem && n'.copied == n.copied
  {
    hide Delivers, Held, RegionValid, Scatter, Stored, NodeOk;
    DeliveryIsOnFrame(states, steps, t, who, f, alloc);
    var n := NodeOf(states[t], who);
    HeldIsValid(n.regions, f.va, |f.data|, f.token);
    ScatterStores(n.mem, f.va, f.data);
    assert f.data[..f.len] == f.data;
  }

  /**
   A READ request is served exactly if such a region holds its range, the response fits a frame and
   there is memory for it: the response has the bytes as they are in memory. Otherwise it says
   failure, or there is none when there is not even memory for that. Memory is as it was.
   */
  lemma ReadServed(states: seq<Sys>, steps: seq<(Who, Step)>, t: nat, who: Who, f: Frame, alloc: Alloc)
    requires f.ReadRq? && Delivers(states, steps, t, who, f, alloc)
    ensures var n, n' := NodeOf(states[t], who), NodeOf(states[t + 1], who);
      var granted := f.len <= MAX_BODY - 12 && Held(n.regions, f.va, f.len, f.token) && alloc == Whole;
      && n' == n.(served := n'.served, reply := n'.reply)
      && if granted
         then
           var data := Loaded(n.mem, f.va, f.len);
           n'.served == n.served + [Reading(f.req, f.va, f.token, data)] && n'.reply == Some(ReadRsp(f.req, f.len, 0, data))
         else
           && n'.served == n.served && (alloc == Nothing ==> n'.reply == n.reply)
           && (alloc != Nothing ==> n'.reply.Some? && n'.reply.value.ReadRsp? && n'.reply.value.req == f.req
                                    && n'.reply.value.status != 0 && n'.reply.value.data == [])
  {
    hide Delivers, Held, RegionValid, Gather, NodeOk;
    DeliveryIsOnFrame(states, steps, t, who, f, alloc);
    var n := NodeOf(states[t], who);
    HeldIsValid(n.regions, f.va, f.len, f.token);
    GatherLoads(n.mem, f.va, f.len);
  }

  /** The k-th outstanding WR is the first WRITE that waits for this ack. */
  ghost predicate FirstWrite(q: seq<Entry>, k: nat, req: U32) {
    && k < |q| && q[k].req == req && q[k].op == Write
    && forall j :: 0 <= j < k ==> !(q[j].req == req && q[j].op == Write)
  }

  /** The k-th outstanding WR is the first with a buffer that waits for this response. */
  ghost predicate FirstRead(q: seq<Entry>, k: nat, req: U32) {
    && k < |q| && q[k].req == req && q[k].lva != 0
    && forall j :: 0 <= j < k ==> !(q[j].req == req && q[j].lva != 0)
  }

  lemma FirstIs<T>(q: seq<T>, k: nat, p: T -> bool)
    requires k <= |q| && (k < |q| ==> p(q[k])) && forall j :: 0 <= j < k ==> !p(q[j])
    ensures First(q, p) == k
  {
  }

  /** An ack answers the outstanding WRITE that waits for it; one that comes too early is kept for it. */
  lemma AckAnswers(states: seq<Sys>, steps: seq<(Who, Step)>, t: nat, who: Who, f: Frame, alloc: Alloc)
    requires f.WriteAck? && Delivers(states, steps, t, who, f, alloc)
    ensures NodeOk(NodeOf(states[t], who)) && NodeOk(NodeOf(states[t + 1], who))
    ensures var n, n' := NodeOf(states[t], who), NodeOf(states[t + 1], who);
      var q, q' := Live(n.out), Live(n'.out);
      && n' == n.(out := n'.out, acks := n'.acks)
      && (forall k: nat :: FirstWrite(q, k, f.req) ==>
            q' == q[k := q[k].(status := f.status, req := 0)] && n'.acks == n.acks)
      && ((forall k :: 0 <= k < |q| ==> !(q[k].req == f.req && q[k].op == Write)) ==>
            q' == q && n'.acks == n.acks[f.req % MAX_OUT := Ack(f.req, f.status, true)])
  {
    hide Delivers, Live;
    DeliveryIsOnFrame(states, steps, t, who, f, alloc);
    var n := NodeOf(states[t], who);
    var q, p := Live(n.out), (e: Entry) => AwaitsAck(e, f.req);
    var first := First(q, p);
    forall k: nat | FirstWrite(q, k, f.req) ensures first == k {
      FirstIs(q, k, p);
    }
    if forall k :: 0 <= k < |q| ==> !p(q[k]) {
      FirstIs(q, |q|, p);
    }
    if first < |q| {
      SetLive(n.out, first, n.out.slots[Slot(n.out, first)].(status := f.status, req := 0));
      LiveAt(n.out, first);
    }
  }

  lemma LiveAt<T>(r: Ring<T>, k: nat)
    requires Ok(r) && k < Count(r)
    ensures Live(r)[k] == r.slots[Slot(r, k)]
  {
  }

  /**
   A response answers the outstanding READ that waits for it. If it says success and has the bytes
   the READ asked for they are in its buffer; if not the READ fails and memory is as it was.
   */
  lemma ResponseAnswers(states: seq<Sys>, steps: seq<(Who, Step)>, t: nat, who: Who, f: Frame, alloc: Alloc, k: nat)
    requires f.ReadRsp? && Delivers(states, steps, t, who, f, alloc)
    requires NodeOk(NodeOf(states[t], who))
    requires FirstRead(Live(NodeOf(states[t], who).out), k, f.req)
    ensures NodeOk(NodeOf(states[t + 1], who))
    ensures var n, n' := NodeOf(states[t], who), NodeOf(states[t + 1], who);
      var q, q' := Live(n.out), Live(n'.out);
      && n' == n.(out := n'.out, mem := n'.mem, landed := n'.landed)
      && |q'| == |q| && q' == q[k := q[k].(status := q'[k].status, req := 0)]
      && (q'[k].status == 0 <==> f.status == 0 && f.len == q[k].len && f.len <= |f.data|)
      && if q'[k].status == 0
         then Stored(n.mem, n'.mem, q[k].lva, f.data[..f.len])
              && n'.landed == n.landed + [Landing(f.req, q[k].lva, f.data[..f.len])]
         else n'.mem == n.mem && n'.landed == n.landed
  {
    hide Delivers, Live, Scatter, Stored;
    DeliveryIsOnFrame(states, steps, t, who, f, alloc);
    var n, n' := NodeOf(states[t], who), NodeOf(states[t + 1], who);
    var q := Live(n.out);
    FirstIs(q, k, (e: Entry) => AwaitsData(e, f.req));
    LiveAt(n.out, k);
    SetLive(n.out, k, n'.out.slots[Slot(n.out, k)]);
    if f.len <= |f.data| {
      ScatterStores(n.mem, q[k].lva, f.data[..f.len]);
    }
  }

  /**
   A message takes the oldest receive buffer, if there is one and its completion has room: as much
   as fits is in the buffer, no other byte has changed, and one record says success, the number of
   bytes and whose buffer it was. Otherwise the message is dropped and nothing happens.
   */
  lemma MessageFills(states: seq<Sys>, steps: seq<(Who, Step)>, t: nat, who: Who, f: Frame, alloc: Alloc)
    requires f.SendMsg? && Delivers(states, steps, t, who, f, alloc)
    ensures NodeOk(NodeOf(states[t], who)) && NodeOk(NodeOf(states[t + 1], who)) && f.len <= |f.data|
    ensures var n, n' := NodeOf(states[t], who), NodeOf(states[t + 1], who);
      var q, jfc := Live(n.rq), n.jfcs[n.recvJfc];
      if q != [] && |Live(jfc.ring)| < MAX_OUT - 1
      then
        var b := q[0];
        var cp: nat := if f.len < b.len then f.len else b.len;
        var cr := Cr(0, true, cp, b.uctx);
        && Live(n'.rq) == q[1..] && |n'.jfcs| == |n.jfcs| && n' == n.(rq := n'.rq, mem := n'.mem, jfcs := n'.jfcs)
        && Stored(n.mem, n'.mem, b.va, if b.va == 0 then [] else f.data[..cp])
        && (forall i :: 0 <= i < |n.jfcs| && i != n.recvJfc ==> n'.jfcs[i] == n.jfcs[i])
        && var jfc' := n'.jfcs[n.recvJfc];
           Live(jfc'.ring) == Live(jfc.ring) + [cr] && jfc'.placed == jfc.placed + [(true, cr)] && jfc'.polled == jfc.polled
      else n' == n
  {
    hide Delivers, Live, Scatter, Stored;
    DeliveryIsOnFrame(states, steps, t, who, f, alloc);
    var n, n' := NodeOf(states[t], who), NodeOf(states[t + 1], who);
    var jfc := n.jfcs[n.recvJfc];
    assert JfcOk(jfc);
    FullCount(jfc.ring);
    EmptyCount(n.rq);
    NothingStored(n.mem, n.rq.slots[n.rq.head].va);
    if Live(n.rq) != [] && !Full(jfc.ring) {
      LiveAt(n.rq, 0);
      PopLive(n.rq);
      var b := n.rq.slots[n.rq.head];
      var cp: U32 := if f.len < b.len then f.len else b.len;
      ScatterStores(n.mem, b.va, f.data[..cp]);
      PushLive(jfc.ring, Cr(0, true, cp, b.uctx));
      NothingStored(n.mem, 0);
    }
  }

  lemma NothingStored(mem: map<nat, Byte>, va: nat)
    ensures Stored(mem, mem, va, [])
  {
  }

  lemma FullCount<T>(r: Ring<T>)
    requires Ok(r)
    ensures Full(r) <==> |Live(r)| == |r.slots| - 1
  {
  }

  lemma EmptyCount<T>(r: Ring<T>)
    requires Ok(r)
    ensures r.head == r.tail <==> Live(r) == []
  {
  }

  /** A response that nothing waits for is ignored. */
  lemma ResponseIgnored(states: seq<Sys>, steps: seq<(Who, Step)>, t: nat, who: Who, f: Frame, alloc: Alloc)
    requires f.ReadRsp? && Delivers(states, steps, t, who, f, alloc) && NodeOk(NodeOf(states[t], who))
    requires var q := Live(NodeOf(states[t], who).out); forall k :: 0 <= k < |q| ==> !(q[k].req == f.req && q[k].lva != 0)
    ensures NodeOf(states[t + 1], who) == NodeOf(states[t], who)
  {
    hide Delivers, Live;
    DeliveryIsOnFrame(states, steps, t, who, f, alloc);
    var q := Live(NodeOf(states[t], who).out);
    FirstIs(q, |q|, (e: Entry) => AwaitsData(e, f.req));
  }

  // ---- posting ----

  /** Step t of the run is this step of this node. */
  ghost predicate StepOf(states: seq<Sys>, steps: seq<(Who, Step)>, t: nat, who: Who, step: Step) {
    IsRun(states, steps) && t < |steps| && steps[t] == (who, step)
  }

  /** A WR that the pipeline took is outstanding behind the others, as posted and with no wait yet. */
  lemma RecordedAsPosted(states: seq<Sys>, steps: seq<(Who, Step)>, t: nat, who: Who)
    requires StepOf(states, steps, t, who, RecordStep(true))
    ensures var n, n' := NodeOf(states[t], who), NodeOf(states[t + 1], who);
      && NodeOk(n) && NodeOk(n') && n.poster.Built?
      && var job, q, q' := n.poster.job, Live(n.out), Live(n'.out);
         var wr := job.wr;
         && |q'| == |q| + 1 && q'[..|q|] == q && n'.posted == n.posted + [job]
         && q'[|q|] == Entry(wr.uctx, wr.op, if wr.op == Atomic then 8 else wr.len, if wr.op == Read then wr.local else 0,
                             job.req, 0, q'[|q|].status)
         && n'.poster == Recorded(n.poster.frame) && n'.mem == n.mem && n'.jfcs == n.jfcs && n'.done == n.done
  {
    assert TwoNodeRuns.Next(states[t], states[t + 1], steps[t]);
    hide Fresh, Live, Requester, AllHonest;
    RunSound(states, steps, t, who);
    var n := NodeOf(states[t], who);
    var stale := n.out.slots[n.out.tail].status;
    PushLive(n.out, Entry(n.poster.job.wr.uctx, n.poster.job.wr.op, JobLen(n.poster.job.wr), JobDest(n.poster.job.wr),
                          n.poster.job.req, 0, stale));
  }

  /** A receive buffer is queued behind the others; past 255 it is refused. */
  lemma BufferQueued(states: seq<Sys>, steps: seq<(Who, Step)>, t: nat, who: Who, b: Buffer)
    requires StepOf(states, steps, t, who, RecvStep(b))
    ensures var n, n' := NodeOf(states[t], who), NodeOf(states[t + 1], who);
      && NodeOk(n) && NodeOk(n') && n' == n.(rq := n'.rq)
      && Live(n'.rq) == if |Live(n.rq)| < 255 then Live(n.rq) + [b] else Live(n.rq)
  {
    assert TwoNodeRuns.Next(states[t], states[t + 1], steps[t]);
    hide Fresh, Live;
    var n := NodeOf(states[t], who);
    FullCount(n.rq);
    if !Full(n.rq) {
      PushLive(n.rq, b);
    }
  }

  // ---- how far a poll goes ----

  lemma OneThenRest<T>(p: seq<T>, q: seq<T>, m: nat)
    requires 0 < m <= |q|
    ensures p + q[..m] == (p + [q[0]]) + q[1..][..m - 1] && q[m..] == q[1..][m - 1..]
  {
  }

  /** A poll hands over the oldest records: as many as were asked for, or all there are. */
  lemma {:induction false} TakeGives(j: Jfc, count: int)
    requires JfcOk(j)
    ensures var q := Live(j.ring);
      var m := if count <= 0 then 0 else if count < |q| then count else |q|;
      Take(j, count).polled == j.polled + q[..m] && Live(Take(j, count).ring) == q[m..]
    decreases Count(j.ring)
  {
    hide Live;
    var q := Live(j.ring);
    EmptyCount(j.ring);
    if count <= 0 || j.ring.head == j.ring.tail {
      assert q[..0] == [] && q[0..] == q;
    } else {
      LiveAt(j.ring, 0);
      PopLive(j.ring);
      var j1 := j.(ring := Rings.Pop(j.ring), polled := j.polled + [j.ring.slots[j.ring.head]]);
      TakeGives(j1, count - 1);
      var m := if count < |q| then count else |q|;
      OneThenRest(j.polled, q, m);
    }
  }

  /** An early ack is kept for this WRITE. */
  predicate Acked(n: Node, e: Entry)
    requires NodeOk(n)
  {
    var a := n.acks[e.req % MAX_OUT];
    e.op == Write && a.valid && a.req == e.req
  }

  /** Why the completion loop may stop at the oldest outstanding WR. */
  ghost predicate Stops(n: Node, wireErr: bool, flits: nat, backstop: nat)
    requires NodeOk(n)
  {
    var q := Live(n.out);
    || q == [] || |Live(n.jfcs[n.sendJfc].ring)| == MAX_OUT - 1
    || (!wireErr && (q[0].op == Read || q[0].op == Write) && q[0].req != 0 && !Acked(n, q[0]))
    || (!wireErr && flits == 0 && q[0].waited <= backstop)
  }

  lemma StopsAt(n: Node, wireErr: bool, flits: nat, backstop: nat)
    requires NodeOk(n) && n.out.head != n.out.tail
    requires var e := n.out.slots[n.out.head];
      || (!wireErr && Unanswered(e) && !AckWaiting(n, e)) || Full(n.jfcs[n.sendJfc].ring)
      || (!wireErr && flits == 0 && e.waited <= backstop)
    ensures Stops(n, wireErr, flits, backstop)
  {
    hide Live;
    var jfc := n.jfcs[n.sendJfc];
    assert JfcOk(jfc);
    EmptyCount(n.out);
    LiveAt(n.out, 0);
    FullCount(jfc.ring);
  }

  lemma RetireGrows(n: Node, wireErr: bool, waits: bool)
    requires NodeOk(n) && n.out.head != n.out.tail && (waits ==> !wireErr)
    ensures var n1 := Settle(n, wireErr);
      var n2 := if waits then Waited(n1) else n1;
      && n1.done == n2.done == n.done && n1.out.head != n1.out.tail && n2.out.head != n2.out.tail
      && (Unanswered(n1.out.slots[n1.out.head]) ==> !wireErr && !AckWaiting(n1, n1.out.slots[n1.out.head]))
      && |Retire(n2).done| == |n.done| + 1 && Retire(n2).done[..|n.done|] == n.done && (wireErr ==> Retire(n2).done[|n.done|].status == ACK_TIMEOUT_ERR)
      && Count(Retire(n2).out) < Count(n.out)
  {
    hide Live;
  }

  /**
   The completion loop retires the outstanding WRs one after the other until none is left, the
   completion ring is full, the next one waits for its answer, or it has neither a flit nor waited
   long enough. It uses one flit for each WR as long as there are any. After a wire error only the
   first two stop it, and every WR it retires fails.
   */
  lemma {:induction false} HarvestStops(n: Node, wireErr: bool, flits: nat, backstop: nat)
    requires NodeOk(n)
    ensures var n' := Harvest(n, wireErr, flits, backstop);
      var retired := |n'.done| - |n.done|;
      && retired >= 0 && Stops(n', wireErr, if retired < flits then flits - retired else 0, backstop)
      && n'.done[..|n.done|] == n.done
      && (wireErr ==> forall k :: |n.done| <= k < |n'.done| ==> n'.done[k].status == ACK_TIMEOUT_ERR)
    decreases Count(n.out)
  {
    hide Settle, Waited, Retire, Stops, Unanswered, AckWaiting;
    if n.out.head == n.out.tail {
      assert Stops(n, wireErr, flits, backstop) by { NoneLeft(n, wireErr, flits, backstop); }
    } else {
      var n1, waits := Settle(n, wireErr), !wireErr && flits == 0;
      RetireGrows(n, wireErr, waits);
      var n2 := if waits then Waited(n1) else n1;
      var rest := if flits > 0 then flits - 1 else 0;
      if Unanswered(n1.out.slots[n1.out.head]) {
        StopsAt(n1, wireErr, flits, backstop);
      } else if waits && n2.out.slots[n2.out.head].waited <= backstop {
        StopsAt(n2, wireErr, flits, backstop);
      } else if Full(n2.jfcs[n2.sendJfc].ring) {
        StopsAt(n2, wireErr, flits, backstop);
      } else {
        HarvestStops(Retire(n2), wireErr, rest, backstop);
      }
    }
  }

  lemma NoneLeft(n: Node, wireErr: bool, flits: nat, backstop: nat)
    requires NodeOk(n) && n.out.head == n.out.tail
    ensures Stops(n, wireErr, flits, backstop)
  {
    hide Live;
    EmptyCount(n.out);
  }

  /** What is outstanding after one round of the loop, and how long its next WR has waited. */
  lemma RoundLeaves(n: Node, wireErr: bool, waits: bool)
    requires NodeOk(n) && n.out.head != n.out.tail
    ensures var n1 := Settle(n, wireErr);
      var n2 := if waits then Waited(n1) else n1;
      && NodeOk(n2) && Live(Retire(n2).out) == Live(n.out)[1..] && |Live(n.out)| > 0
      && n2.out.slots[n2.out.head].waited == (Live(n.out)[0].waited + if waits then 1 else 0) % WORD32
      && |Retire(n2).done| == |n.done| + 1 && n2.done == n.done && n1.done == n.done
  {
    hide Live;
    EmptyCount(n.out);
    LiveAt(n.out, 0);
    var n1 := Settle(n, wireErr);
    var n2 := if waits then Waited(n1) else n1;
    HeadOnly(n.out, n2.out);
  }

  /** A ring in which only the oldest element has changed. */
  lemma HeadOnly<T>(r: Ring<T>, r': Ring<T>)
    requires Ok(r) && Live(r) != [] && Ok(r') && |r'.slots| == |r.slots| && r' == Set(r, r.head, r'.slots[r.head])
    ensures Live(Rings.Pop(r')) == Live(r)[1..]
  {
    hide Live;
    SetLive(r, 0, r'.slots[r.head]);
    PopLive(r');
    assert Live(r)[0 := r'.slots[r.head]][1..] == Live(r)[1..];
  }

  /** A WR is retired only with a flit of its own, after a wire error, or when it has waited long enough. */
  lemma {:induction false} RetiresInTurn(n: Node, wireErr: bool, flits: nat, backstop: nat, k: nat)
    requires NodeOk(n) && !wireErr && flits <= k < |Harvest(n, wireErr, flits, backstop).done| - |n.done|
    ensures k < |Live(n.out)| && (Live(n.out)[k].waited + 1) % WORD32 > backstop
    decreases Count(n.out)
  {
    hide Settle, Waited, Retire, Unanswered, Live;
    if n.out.head == n.out.tail {
    } else {
      var n1, waits := Settle(n, wireErr), flits == 0;
      RoundLeaves(n, wireErr, waits);
      RetireGrows(n, wireErr, waits);
      var n2 := if waits then Waited(n1) else n1;
      if k > 0 && !Unanswered(n1.out.slots[n1.out.head]) {
        RetiresInTurn(Retire(n2), wireErr, if flits > 0 then flits - 1 else 0, backstop, k - 1);
      }
    }
  }
}
