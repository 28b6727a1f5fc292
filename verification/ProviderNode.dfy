/**
 The provider's context object: tables and rings updated in place under its lock. Every method
 is proved to do to the object's state what the functions of Provider do to a Node.
 */
module ProviderNode {
  import opened Words
  import opened GuestMemory
  import opened SideChannel
  import opened Rings
  import opened Provider

  /** One round of the completion loop, as an equation. */
  lemma HarvestRound(n: Node, wireErr: bool, flits: nat, backstop: nat)
    requires NodeOk(n) && n.out.head != n.out.tail
    ensures
      var n1 := Settle(n, wireErr);
      var waits := !wireErr && flits == 0;
      var n2 := if waits then Waited(n1) else n1;
      Harvest(n, wireErr, flits, backstop) ==
        if Unanswered(n1.out.slots[n1.out.head]) then n1
        else if (waits && n2.out.slots[n2.out.head].waited <= backstop) || Full(n2.jfcs[n2.sendJfc].ring) then n2
        else Harvest(Retire(n2), wireErr, if flits > 0 then flits - 1 else 0, backstop)
  {
    hide Settle, Waited, Retire;
  }

  lemma JfcShape(j: Jfc)
    requires JfcOk(j)
    ensures |j.ring.slots| == MAX_OUT && Ok(j.ring)
  {
  }

  class Context {
    var mem: map<nat, Byte>
    const regions: array<Region>
    const out: array<Entry>
    const acks: array<Ack>
    const rq: array<Buffer>
    var outh: nat
    var outt: nat
    var rqh: nat
    var rqt: nat
    var reqSeq: U32
    var jfcs: seq<Jfc>
    const sendJfc: nat
    const recvJfc: nat
    var failed: bool
    var malformed: nat
    ghost var poster: Poster
    ghost var reply: Option<Frame>
    ghost var built: seq<Job>
    ghost var posted: seq<Job>
    ghost var done: seq<Cr>
    ghost var copied: seq<Copy>
    ghost var served: seq<Reading>
    ghost var landed: seq<Landing>
    ghost var stale: seq<U32>
    ghost var timedOut: set<nat>
    ghost var late: set<nat>

    /** A zeroed context with the given number of completion queues. */
    constructor (memory: map<nat, Byte>, queues: nat, send: nat, recv: nat)
      requires send < queues && recv < queues
      ensures Valid() && fresh(regions) && fresh(out) && fresh(acks) && fresh(rq)
      ensures mem == memory && outh == outt == 0 && rqh == rqt && reqSeq == 1 && poster == Idle && reply == None
      ensures sendJfc == send && recvJfc == recv && |jfcs| == queues
      ensures forall i :: 0 <= i < queues ==>
        jfcs[i].ring.head == jfcs[i].ring.tail && jfcs[i].placed == [] && jfcs[i].polled == []
      ensures forall i :: 0 <= i < REGIONS ==> !regions[i].active
      ensures forall i :: 0 <= i < MAX_OUT ==> !acks[i].valid && out[i].status == 0
      ensures built == [] == posted && done == [] && copied == [] && served == [] && landed == []
      ensures stale == [] && timedOut == {} && late == {}
    {
      mem := memory;
      regions := new Region[REGIONS](_ => Region(0, 0, 0, false));
      out := new Entry[MAX_OUT](_ => Entry(0, Write, 0, 0, 0, 0, 0));
      acks := new Ack[MAX_OUT](_ => Ack(0, 0, false));
      rq := new Buffer[MAX_RECV](_ => Buffer(0, 0, 0));
      outh, outt, rqh, rqt, reqSeq, failed, malformed := 0, 0, 0, 0, 1, false, 0;
      jfcs := seq(queues, _ => Jfc(Ring(seq(MAX_OUT, _ => Cr(0, false, 0, 0)), 0, 0), [], []));
      sendJfc, recvJfc := send, recv;
      poster, reply, built, posted, done, copied, served, landed := Idle, None, [], [], [], [], [], [];
      stale, timedOut, late := [], {}, {};
    }

    ghost function State(): Node
      reads this, regions, out, acks, rq
    {
      Node(mem, regions[..], Ring(out[..], outh, outt), acks[..], reqSeq, jfcs, sendJfc, recvJfc,
           Ring(rq[..], rqh, rqt), failed, malformed, poster, reply, built, posted, done, copied, served, landed,
           stale, timedOut, late)
    }

    ghost predicate Valid()
      reads this, regions, out, acks, rq
    {
      NodeOk(State())
    }

    method RegionValidLocked(va: U64, len: U32, token: U32) returns (ok: bool)
      ensures ok == RegionValid(regions[..], va, len, token)
    {
      ok := false;
      var i := 0;
      while i < regions.Length
        invariant i <= regions.Length
        invariant forall k :: 0 <= k < i ==> !Grants(regions[k], va, len, token)
      {
        var r := regions[i];
        if r.active && r.token == token && va >= r.va {
          var offset := va - r.va;
          if offset <= r.len && len <= r.len - offset {
            assert Grants(regions[..][i], va, len, token);
            return true;
          }
        }
        i := i + 1;
      }
    }

    method RegisterSeg(va: U64, len: U64, token: U32) returns (stored: bool)
      modifies regions
      ensures regions[..] == Register(old(regions[..]), va, len, token)
      ensures stored <==> exists r :: r in old(regions[..]) && !r.active
    {
      stored := false;
      var free := (r: Region) => !r.active;
      var i := 0;
      while i < regions.Length
        invariant i <= regions.Length && regions[..] == old(regions[..])
        invariant forall k :: 0 <= k < i ==> !free(regions[k])
      {
        if !regions[i].active {
          assert First(regions[..], free) == i;
          regions[i] := Region(va, len, token, true);
          assert old(regions[..])[i] in old(regions[..]);
          return true;
        }
        i := i + 1;
      }
      assert First(regions[..], free) == |regions[..]|;
    }

    method UnregisterSeg(va: U64, token: U32) returns (found: bool)
      modifies regions
      ensures regions[..] == Unregister(old(regions[..]), va, token)
      ensures found <==> exists r :: r in old(regions[..]) && r.active && r.va == va && r.token == token
    {
      found := false;
      var mine := (r: Region) => r.active && r.va == va && r.token == token;
      var i := 0;
      while i < regions.Length
        invariant i <= regions.Length && regions[..] == old(regions[..])
        invariant forall k :: 0 <= k < i ==> !mine(regions[k])
      {
        if regions[i].active && regions[i].va == va && regions[i].token == token {
          assert First(regions[..], mine) == i;
          assert old(regions[..])[i] in old(regions[..]);
          regions[i] := regions[i].(active := false);
          return true;
        }
        i := i + 1;
      }
      assert First(regions[..], mine) == |regions[..]|;
    }

    /** D_WRITE: copy into a valid region and answer with the status. */
    method OnWriteRequest(va: U64, token: U32, len: U32, req: U32, data: seq<Byte>) returns (ack: Frame)
      requires Valid()
      modifies this
      ensures State() == OnWriteRq(old(State()), va, token, len, req, data)
      ensures Some(ack) == reply
    {
      hide Scatter, Span, RegionValid, JfcOk;
      var ok := false;
      if len <= |data| {
        ok := RegionValidLocked(va, len, token);
      }
      if ok {
        mem := Scatter(mem, Span(va, len), data[..len]);
        copied := copied + [Copy(req, va, token, data[..len])];
      }
      ack := WriteAck(req, if ok then 0 else REM_ACCESS_ABORT_ERR);
      reply := Some(ack);
    }

    /** Scan the outstanding ring from its head for the first entry with a property. */
    method FindOutstanding(p: Entry -> bool) returns (found: bool, i: nat)
      requires Valid()
      ensures found == (First(Live(State().out), p) < Count(State().out))
      ensures found ==> i == Slot(State().out, First(Live(State().out), p))
    {
      hide JfcOk;
      ghost var ring := State().out;
      i := outh;
      ghost var k := 0;
      while i != outt
        invariant k <= Count(ring) && i == Slot(ring, k) && forall j :: 0 <= j < k ==> !p(Live(ring)[j])
        decreases Count(ring) - k
      {
        assert out[i] == Live(ring)[k];
        if p(out[i]) {
          assert First(Live(ring), p) == k;
          return true, i;
        }
        i, k := (i + 1) % MAX_OUT, k + 1;
      }
      assert k == Count(ring);
      assert First(Live(ring), p) == k;
      found := false;
    }

    /** D_WRITEACK: answer the first outstanding WRITE with this id, or keep the ack for poll. */
    method OnAck(req: U32, status: U32)
      requires Valid()
      modifies out, acks
      ensures State() == OnWriteAck(old(State()), req, status)
    {
      hide First, Live;
      var found, i := FindOutstanding((e: Entry) => AwaitsAck(e, req));
      if found {
        out[i] := out[i].(status := status, req := 0);
      } else {
        acks[req % MAX_OUT] := Ack(req, status, true);
      }
    }

    /** D_READRSP: check the length, store the data and answer the outstanding READ with this id. */
    method OnResponse(req: U32, len: U32, status: U32, data: seq<Byte>)
      requires Valid()
      modifies this, out
      ensures State() == OnReadRsp(old(State()), req, len, status, data)
    {
      hide First, Scatter, Span;
      var p := (e: Entry) => AwaitsData(e, req);
      var found, i := FindOutstanding(p);
      if found {
        assert out[i] == Live(State().out)[First(Live(State().out), p)];
        var status': U32 := if status == 0 && (len != out[i].len || len > |data|) then REM_RESP_LEN_ERR else status;
        if status' == 0 {
          mem := Scatter(mem, Span(out[i].lva, len), data[..len]);
          landed := landed + [Landing(req, out[i].lva, data[..len])];
        }
        out[i] := out[i].(status := status', req := 0);
      }
    }

    /** D_SEND: fill the oldest posted buffer and put its completion on the receive JFC, if both have room. */
    /** The oldest receive buffer is taken and filled with as much of the message as fits. */
    method FillBuffer(len: U32, data: seq<Byte>) returns (cp: U32, uctx: U64)
      requires Valid() && len <= |data| && rqh != rqt
      modifies this`rqh, this`mem
      ensures var n := old(State());
        var b := n.rq.slots[n.rq.head];
        && cp == (if len < b.len then len else b.len) && uctx == b.uctx
        && State() == n.(rq := Pop(n.rq),
                         mem := if cp != 0 && b.va != 0 then Scatter(n.mem, Span(b.va, cp), data[..cp]) else n.mem)
    {
      hide Scatter, Span, JfcOk;
      var b := rq[rqh];
      rqh := (rqh + 1) % MAX_RECV;
      cp, uctx := if len < b.len then len else b.len, b.uctx;
      if cp != 0 && b.va != 0 {
        mem := Scatter(mem, Span(b.va, cp), data[..cp]);
      }
    }

    method OnMessage(len: U32, data: seq<Byte>)
      requires Valid() && len <= |data|
      modifies this
      ensures State() == OnSend(old(State()), len, data)
    {
      hide Scatter, Span, Placed, JfcOk;
      var jfc := jfcs[recvJfc];
      assert JfcOk(jfc);
      JfcShape(jfc);
      if rqh != rqt && (jfc.ring.tail + 1) % MAX_OUT != jfc.ring.head {
        var cp, uctx := FillBuffer(len, data);
        hide Pop;
        jfcs := jfcs[recvJfc := Placed(jfc, true, Cr(0, true, cp, uctx))];
      }
    }

    method PostJettyRecv(va: U64, len: U32, uctx: U64) returns (ok: bool)
      requires Valid()
      modifies this`rqt, rq
      ensures State() == PostRecv(old(State()), Buffer(va, len, uctx)) && ok == !Full(old(State()).rq)
    {
      ok := (rqt + 1) % MAX_RECV != rqh;
      if ok {
        rq[rqt] := Buffer(va, len, uctx);
        rqt := (rqt + 1) % MAX_RECV;
      }
    }

    /** The outstanding entry of the WR being posted; its status field is left as it was. */
    method RecordOutstanding(ghost job: Job, ghost frame: Option<Frame>, wr: Wr, req: U32)
      requires Valid() && poster == Built(job, frame) && job.wr == wr && job.req == req
      modifies this, out
      ensures State() == Record(old(State()), true)
    {
      hide JfcOk;
      ghost var was, at := out[..], outt;
      stale := stale + [out[outt].status];
      out[outt] := out[outt].(uctx := wr.uctx, op := wr.op, len := JobLen(wr), lva := JobDest(wr), req := req, waited := 0);
      outt := (outt + 1) % MAX_OUT;
      posted := posted + [job];
      poster := Recorded(frame);
      assert out[..] == was[at := out[at]];
    }

    method FailLast()
      requires Valid()
      modifies this`poster, this`timedOut, this`late, out
      ensures State() == SendRefused(old(State()))
    {
      if posted != [] {
        if outh != outt {
          timedOut := timedOut + {|posted| - 1};
        } else {
          late := late + {|posted| - 1};
        }
      }
      var slot := (outt + MAX_OUT - 1) % MAX_OUT;
      out[slot] := out[slot].(status := ACK_TIMEOUT_ERR, req := 0);
      poster := Idle;
    }

    method SettleHead(wireErr: bool)
      requires Valid() && outh != outt
      modifies this`timedOut, out, acks
      ensures State() == Settle(old(State()), wireErr)
    {
      var i := outh;
      if wireErr {
        out[i] := out[i].(status := ACK_TIMEOUT_ERR, req := 0);
        timedOut := timedOut + {|done|};
      }
      if out[i].op == Write && out[i].req != 0 {
        var slot := out[i].req % MAX_OUT;
        if acks[slot].valid && acks[slot].req == out[i].req {
          out[i] := out[i].(status := acks[slot].status, req := 0);
          acks[slot] := acks[slot].(valid := false);
        }
      }
      assert State().out.slots == Settle(old(State()), wireErr).out.slots;
    }

    method RetireHead()
      requires Valid() && outh != outt
      modifies this`jfcs, this`outh, this`done
      ensures State() == Retire(old(State())) && Count(State().out) < Count(old(State()).out)
    {
      var e := out[outh];
      var cr := Cr(e.status, e.op == Send, e.len, e.uctx);
      jfcs := jfcs[sendJfc := Placed(jfcs[sendJfc], false, cr)];
      outh := (outh + 1) % MAX_OUT;
      done := done + [cr];
    }

    method WaitHead()
      requires Valid() && outh != outt
      modifies out
      ensures State() == Waited(old(State()))
    {
      out[outh] := out[outh].(waited := (out[outh].waited + 1) % WORD32);
    }

    /** One round of the completion loop; more is false when it breaks out. */
    method HarvestOne(wireErr: bool, flits: nat, backstop: nat) returns (more: bool)
      requires Valid() && outh != outt
      modifies this`jfcs, this`outh, this`done, this`timedOut, out, acks
      ensures Valid()
      ensures more ==> Count(State().out) < Count(old(State()).out)
      ensures var goal := Harvest(old(State()), wireErr, flits, backstop);
        if more then Harvest(State(), wireErr, if flits > 0 then flits - 1 else 0, backstop) == goal else State() == goal
    {
      hide Settle, Waited, Retire, Harvest, Placed;
      HarvestRound(State(), wireErr, flits, backstop);
      SettleHead(wireErr);
      if (out[outh].op == Read || out[outh].op == Write) && out[outh].req != 0 {
        return false;
      }
      if !wireErr && flits == 0 {
        WaitHead();
        if out[outh].waited <= backstop {
          return false;
        }
      }
      var sjfc := jfcs[sendJfc];
      if (sjfc.ring.tail + 1) % MAX_OUT == sjfc.ring.head {
        return false;
      }
      RetireHead();
      more := true;
    }

    /** Deliver completions of the oldest outstanding WRs, in order. */
    method HarvestCompletions(wireErr: bool, scCqe: nat, backstop: nat)
      requires Valid()
      modifies this`jfcs, this`outh, this`done, this`timedOut, out, acks
      ensures State() == Harvest(old(State()), wireErr, scCqe, backstop)
    {
      hide Settle, Waited, Retire;
      ghost var goal := Harvest(State(), wireErr, scCqe, backstop);
      var flits, more := scCqe, true;
      while more && outh != outt
        invariant Valid()
        invariant if more then Harvest(State(), wireErr, flits, backstop) == goal else State() == goal
        decreases more, Count(State().out)
      {
        more := HarvestOne(wireErr, flits, backstop);
        flits := if flits > 0 then flits - 1 else 0;
      }
    }

    /** Hand over at most `count` records from the JFC's ring, oldest first. */
    method TakeRecords(jfc: nat, count: int) returns (crs: seq<Cr>)
      requires Valid() && jfc < |jfcs|
      modifies this`jfcs
      ensures State() == old(State()).(jfcs := old(jfcs)[jfc := Take(old(jfcs[jfc]), count)])
      ensures jfcs[jfc].polled == old(jfcs[jfc].polled) + crs
    {
      hide Live;
      crs := [];
      var got := 0;
      while got < count && jfcs[jfc].ring.head != jfcs[jfc].ring.tail
        invariant |jfcs| == |old(jfcs)| && JfcOk(jfcs[jfc]) && got == |crs|
        invariant jfcs == old(jfcs)[jfc := jfcs[jfc]]
        invariant Take(jfcs[jfc], count - got) == Take(old(jfcs[jfc]), count)
        invariant jfcs[jfc].polled == old(jfcs[jfc].polled) + crs
        decreases Count(jfcs[jfc].ring)
      {
        var j := jfcs[jfc];
        var cr := j.ring.slots[j.ring.head];
        crs := crs + [cr];
        got := got + 1;
        jfcs := jfcs[jfc := Jfc(j.ring.(head := (j.ring.head + 1) % MAX_OUT), j.placed, j.polled + [cr])];
      }
    }

    method PollJfc(jfc: nat, count: int, wireErr: bool, scCqe: nat, backstop: nat) returns (crs: seq<Cr>)
      requires Valid() && jfc < |jfcs|
      modifies this`jfcs, this`outh, this`done, this`timedOut, out, acks
      ensures State() == Poll(old(State()), jfc, count, wireErr, scCqe, backstop)
    {
      HarvestCompletions(wireErr, scCqe, backstop);
      crs := TakeRecords(jfc, count);
    }
  }
}
