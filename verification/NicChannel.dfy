/**
 Completions from the work request to the poll: over every run of the NIC, what is polled from a
 JFC is what the NIC raised for it.
 */
module NicChannel {
  import opened Words
  import opened GuestMemory
  import opened MrAccess
  import opened PeerPacket
  import opened JfcQueue
  import opened Completion
  import opened DataPlane
  import Conservation

  /** Anything that can happen to the NIC, or the application polling a JFC. */
  datatype Act = Happens(event: Conservation.Event) | Polls(id: U32)

  /** No completion record looks like an empty slot. */
  predicate Never(c: Cqe) {
    false
  }

  function Pushed(q: Queues<Cqe>, cs: seq<Raised>): Queues<Cqe>
    decreases |cs|
  {
    if cs == [] then q else Push(Pushed(q, cs[..|cs| - 1]), cs[|cs| - 1].jfc, cs[|cs| - 1].cqe)
  }

  /** A step that raises these completions and does nothing else to the queues. */
  ghost predicate Raises(nic: Nic, nic': Nic, cs: seq<Raised>) {
    nic'.log == nic.log + cs && nic'.queues == Pushed(nic.queues, cs)
  }

  ghost predicate Enabled(nic: Nic, act: Act) {
    match act
    case Happens(e) => Conservation.EventOk(e) && (e.Host? ==> e.queues == nic.queues)
    case Polls(_) => true
  }

  function Do(nic: Nic, act: Act): Nic
    requires act.Happens? ==> act.event.FromPeer? ==> |act.event.pkt.payload| < WORD32
  {
    match act
    case Happens(e) => Conservation.Step(nic, e)
    case Polls(id) => nic.(queues := Pop(nic.queues, Masked(id), Never).queues)
  }

  ghost predicate IsRun(nics: seq<Nic>, acts: seq<Act>) {
    && |nics| == |acts| + 1 && nics[0].log == [] && nics[0].queues == map[]
    && forall i :: 0 <= i < |acts| ==> Enabled(nics[i], acts[i]) && nics[i + 1] == Do(nics[i], acts[i])
  }

  /** The completions raised for a JFC. */
  function RaisedFor(log: seq<Raised>, id: U32): seq<Cqe> {
    if log == [] then []
    else
      var x := log[|log| - 1];
      RaisedFor(log[..|log| - 1], id) + if x.jfc == id then [x.cqe] else []
  }

  /** The completions the polls of this id have returned in the first k acts. */
  function Got(nics: seq<Nic>, acts: seq<Act>, k: nat, id: U32): seq<Cqe>
    requires k <= |acts| <= |nics|
  {
    if k == 0 then []
    else
      var got := Got(nics, acts, k - 1, id);
      match acts[k - 1]
      case Happens(_) => got
      case Polls(i) =>
        var slot := Pop(nics[k - 1].queues, Masked(i), Never).slot;
        if i == id && slot.Some? then got + [slot.value] else got
  }

  /** How many of these completions for a JFC, raised one after the other, meet a queue of 256. */
  ghost function Overfull(q: Queues<Cqe>, cs: seq<Raised>, id: U32): nat
    decreases |cs|
  {
    if cs == [] then 0
    else
      var before, c := cs[..|cs| - 1], cs[|cs| - 1];
      Overfull(q, before, id) + if c.jfc == id && |Queue(Pushed(q, before), id)| >= QUEUE_MAX then 1 else 0
  }

  /** What one act added to the log. */
  ghost function Added(nic: Nic, nic': Nic): seq<Raised> {
    if |nic.log| <= |nic'.log| then nic'.log[|nic.log|..] else []
  }

  /** How many completions for a JFC, in the first k acts, were raised when its queue held 256. */
  ghost function Overflows(nics: seq<Nic>, k: nat, id: U32): nat
    requires k < |nics|
  {
    if k == 0 then 0
    else Overflows(nics, k - 1, id) + Overfull(nics[k - 1].queues, Added(nics[k - 1], nics[k]), id)
  }

  /** How many completions of a JFC, in the first k acts, were polled under another id that masks to it. */
  ghost function Diversions(nics: seq<Nic>, acts: seq<Act>, k: nat, id: U32): nat
    requires k <= |acts| <= |nics|
  {
    if k == 0 then 0
    else
      Diversions(nics, acts, k - 1, id)
      + if acts[k - 1].Polls? && Diverts(nics[k - 1].queues, acts[k - 1].id, id, Never) then 1 else 0
  }

  // ---- every event only raises ----

  lemma Raise1(nic: Nic, nic': Nic, x: Raised)
    requires nic'.log == nic.log + [x] && nic'.queues == Push(nic.queues, x.jfc, x.cqe)
    ensures Raises(nic, nic', [x])
  {
    assert [x][..0] == [];
  }

  lemma Raise2(nic: Nic, nic': Nic, x: Raised, y: Raised)
    requires nic'.log == nic.log + [x] + [y]
    requires nic'.queues == Push(Push(nic.queues, x.jfc, x.cqe), y.jfc, y.cqe)
    ensures Raises(nic, nic', [x, y])
  {
    assert [x, y][..1] == [x] && [x][..0] == [];
    assert Pushed(nic.queues, [x]) == Push(Pushed(nic.queues, []), x.jfc, x.cqe);
    assert nic.log + [x] + [y] == nic.log + [x, y];
  }

  /** The new part of the log is what was raised: none, one or two completions. */
  ghost predicate Raising(nic: Nic, nic': Nic) {
    exists cs :: Raises(nic, nic', cs)
  }

  lemma Raise0(nic: Nic, nic': Nic)
    requires nic'.log == nic.log && nic'.queues == nic.queues
    ensures Raising(nic, nic')
  {
    assert Raises(nic, nic', []);
  }

  lemma WriteRaises(nic: Nic, wr: Wr)
    ensures Raising(nic, ExecWrite(nic, wr))
  {
    hide Move, MrRead, FirstRecv, Push, PeerSend, Pushed;
    var nic' := ExecWrite(nic, wr);
    PeerSendQuiet(nic);
    if wr.len > 0 && wr.remTok in nic.mrs {
      var w := Move(nic, wr.remTok, wr.remVa, wr.locTok, wr.locVa, wr.len);
      var x := Raised(wr.sendJfc, SendCqe(wr.len, wr.op, wr.uctx, w.ok));
      var i := FirstRecv(nic.recvs, wr.dcna);
      if wr.op == OP_WRITE_IMM && i < |nic.recvs| {
        Raise2(nic, nic', x, Raised(nic.recvs[i].jfc, Cqe(wr.len, OP_WRITE_IMM, nic.recvs[i].uctx, 1, 1, wr.imm, w.ok)));
      } else {
        Raise1(nic, nic', x);
      }
    } else {
      var ok := wr.len > 0 && nic.hasPeer && MrRead(nic.ram, nic.mrs, wr.locTok, wr.locVa, wr.len).Some?;
      Raise1(nic, nic', Raised(wr.sendJfc, SendCqe(wr.len, wr.op, wr.uctx, ok)));
    }
  }

  lemma PeerSendQuiet(nic: Nic)
    ensures forall p: Pkt :: PeerSend(nic, p).log == nic.log && PeerSend(nic, p).queues == nic.queues
  {
  }

  lemma DeliverRaises(nic0: Nic, nic: Nic, s: Pending, r: Recv)
    requires nic.log == nic0.log && nic.queues == nic0.queues
    ensures Raising(nic0, Deliver(nic, s, r))
  {
    hide Move, Push, Pushed;
    var nic' := Deliver(nic, s, r);
    var w := if s.len == 0 then Written(nic.ram, false) else Move(nic, r.tok, r.va, s.tok, s.va, s.len);
    var imm := s.op == OP_SEND_IMM;
    Raise2(nic0, nic', Raised(s.jfc, SendCqe(s.len, s.op, s.uctx, w.ok)),
           Raised(r.jfc, Cqe(s.len, s.op, r.uctx, 1, if imm then 1 else 0, if imm then s.imm else 0, w.ok)));
  }

  lemma SendRaises(nic: Nic, ctx: nat, wr: Wr)
    ensures Raising(nic, ExecSend(nic, ctx, wr))
  {
    hide Deliver, MrRead, FirstRecv, Push, PeerSend, Pushed, Raising;
    var nic', i := ExecSend(nic, ctx, wr), FirstRecv(nic.recvs, wr.dcna);
    PeerSendQuiet(nic);
    if i < |nic.recvs| {
      DeliverRaises(nic, nic.(recvs := Without(nic.recvs, i)), AsPending(ctx, wr), nic.recvs[i]);
    } else if nic.hasPeer {
      OneRaises(nic, nic', Raised(wr.sendJfc, SendCqe(wr.len, wr.op, wr.uctx, true)));
    } else {
      Raise0(nic, nic');
    }
  }

  lemma OneRaises(nic: Nic, nic': Nic, x: Raised)
    requires nic'.log == nic.log + [x] && nic'.queues == Push(nic.queues, x.jfc, x.cqe)
    ensures Raising(nic, nic')
  {
    Raise1(nic, nic', x);
  }

  lemma ExecRaises(nic: Nic, ctx: nat, wr: Wr)
    ensures Raising(nic, Exec(nic, ctx, wr))
  {
    hide ExecWrite, ExecSend, Move, AtomicUpdate, Push, Raising;
    var nic' := Exec(nic, ctx, wr);
    WriteRaises(nic, wr);
    SendRaises(nic, ctx, wr);
    if !(wr.op == OP_WRITE || wr.op == OP_WRITE_IMM || wr.op == OP_SEND || wr.op == OP_SEND_IMM) {
      OneRaises(nic, nic', nic'.log[|nic.log|]);
    }
  }

  lemma PostRecvRaises(nic: Nic, r: Recv)
    ensures Raising(nic, PostRecv(nic, r))
  {
    hide Deliver, FirstPending, Raising;
    var rs := nic.recvs + [r];
    var n1 := nic.(recvs := if |rs| > RECV_MAX then rs[1..] else rs);
    var i := FirstPending(nic.pending, r.jetty);
    if i < |nic.pending| {
      DeliverRaises(nic, n1.(pending := Without(nic.pending, i)), nic.pending[i], r);
    } else {
      Raise0(nic, PostRecv(nic, r));
    }
  }

  lemma PeerRaises(nic: Nic, p: Pkt)
    requires |p.payload| < WORD32
    ensures Raising(nic, PeerApply(nic, p))
  {
    hide Deposit, MrWrite, FirstRecv, Raising, Consume;
    var nic', i := PeerApply(nic, p), FirstRecv(nic.recvs, p.dcna);
    if i < |nic.recvs| && (p.op == OP_WRITE_IMM || p.op == OP_SEND || p.op == OP_SEND_IMM) {
      var imm := if p.op == OP_SEND then 0 else 1;
      forall ram: Ram, ok: bool ensures Raising(nic, Consume(nic.(ram := ram), i, |p.payload|, p.op, imm, p.imm, ok)) {
        ConsumeRaises(nic, ram, i, |p.payload|, p.op, imm, p.imm, ok);
      }
    } else {
      Raise0(nic, nic');
    }
  }

  lemma ConsumeRaises(nic: Nic, ram: Ram, i: nat, len: U32, op: Byte, immValid: Byte, imm: U32, ok: bool)
    requires i < |nic.recvs|
    ensures Raising(nic, Consume(nic.(ram := ram), i, len, op, immValid, imm, ok))
  {
    hide Raising, Push;
    var r := nic.recvs[i];
    var nic' := Consume(nic.(ram := ram), i, len, op, immValid, imm, ok);
    OneRaises(nic, nic', Raised(r.jfc, Cqe(len, op, r.uctx, 1, immValid, imm, ok)));
  }

  lemma EventRaises(nic: Nic, e: Conservation.Event)
    requires Enabled(nic, Happens(e))
    ensures Raising(nic, Conservation.Step(nic, e))
  {
    hide Exec, PostRecv, PeerApply, Raising;
    match e
    case Doorbell(ctx, wr) => ExecRaises(nic, ctx, wr);
    case RecvDoorbell(r) => PostRecvRaises(nic, r);
    case FromPeer(p) => PeerRaises(nic, p);
    case RegisterMr(_, _, _, _) => Raise0(nic, Conservation.Step(nic, e));
    case Host(_, _) => Raise0(nic, Conservation.Step(nic, e));
  }

  // ---- a run of the NIC is a run of its queues ----

  /** The queue events of a run, up to its k-th state: same queues, same records, same losses. */
  ghost predicate Mirrors(es: seq<Event<Cqe>>, nics: seq<Nic>, acts: seq<Act>, k: nat)
    requires k <= |acts| < |nics|
  {
    After(es, Never) == nics[k].queues && forall id: U32 :: MirrorsFor(es, nics, acts, k, id)
  }

  ghost predicate MirrorsFor(es: seq<Event<Cqe>>, nics: seq<Nic>, acts: seq<Act>, k: nat, id: U32)
    requires k <= |acts| < |nics|
  {
    && ArrivedFor(es, id) == RaisedFor(nics[k].log, id)
    && PolledFrom(es, id, Never) == Got(nics, acts, k, id)
    && Lost(es, id, Never) == Overflows(nics, k, id)
    && Diverted(es, id, Never) == Diversions(nics, acts, k, id)
  }

  function Arrivals(cs: seq<Raised>): seq<Event<Cqe>> {
    seq(|cs|, i requires 0 <= i < |cs| => Arrive(cs[i].jfc, cs[i].cqe))
  }

  /** Completions raised one after the other arrive one after the other. */
  lemma {:induction false} ArriveAll(es: seq<Event<Cqe>>, log: seq<Raised>, cs: seq<Raised>, id: U32)
    requires ArrivedFor(es, id) == RaisedFor(log, id)
    ensures var es' := es + Arrivals(cs);
      && After(es', Never) == Pushed(After(es, Never), cs)
      && ArrivedFor(es', id) == RaisedFor(log + cs, id)
      && PolledFrom(es', id, Never) == PolledFrom(es, id, Never)
      && Lost(es', id, Never) == Lost(es, id, Never) + Overfull(After(es, Never), cs, id)
      && Diverted(es', id, Never) == Diverted(es, id, Never)
    decreases |cs|
  {
    hide Push, Queue, After, PolledFrom, Lost, Diverted, ArrivedFor;
    if cs == [] {
      assert log + [] == log && es + [] == es;
    } else {
      var before, c := cs[..|cs| - 1], cs[|cs| - 1];
      ArriveAll(es, log, before, id);
      ArriveStep(es + Arrivals(before), c.jfc, c.cqe, id, Never);
      assert es + Arrivals(cs) == (es + Arrivals(before)) + [Arrive(c.jfc, c.cqe)];
      assert (log + cs)[..|log + cs| - 1] == log + before;
    }
  }

  lemma RaisedMirrored(before: seq<Event<Cqe>>, nics: seq<Nic>, acts: seq<Act>, k: nat, cs: seq<Raised>)
    requires 0 < k <= |acts| < |nics| && acts[k - 1].Happens? && Raises(nics[k - 1], nics[k], cs)
    requires Mirrors(before, nics, acts, k - 1)
    ensures Mirrors(before + Arrivals(cs), nics, acts, k)
  {
    hide Pushed, After, PolledFrom, ArrivedFor, RaisedFor, Lost, Diverted, Overfull, Diverts, Arrivals;
    assert Added(nics[k - 1], nics[k]) == cs;
    forall id: U32 ensures MirrorsFor(before + Arrivals(cs), nics, acts, k, id) {
      assert MirrorsFor(before, nics, acts, k - 1, id);
      ArriveAll(before, nics[k - 1].log, cs, id);
    }
    assert MirrorsFor(before, nics, acts, k - 1, 0);
    ArriveAll(before, nics[k - 1].log, cs, 0);
  }

  lemma PollMirrored(before: seq<Event<Cqe>>, nics: seq<Nic>, acts: seq<Act>, k: nat, i: U32)
    requires 0 < k <= |acts| < |nics| && acts[k - 1] == Polls(i) && nics[k] == Do(nics[k - 1], Polls(i))
    requires Mirrors(before, nics, acts, k - 1)
    ensures Mirrors(before + [Poll(i)], nics, acts, k)
  {
    hide Pop, After, PolledFrom, ArrivedFor, RaisedFor, Lost, Diverted, Diverts, Masked;
    PollTakes(before, i, i, Never);
    assert Added(nics[k - 1], nics[k]) == [];
    forall id: U32 ensures MirrorsFor(before + [Poll(i)], nics, acts, k, id) {
      assert MirrorsFor(before, nics, acts, k - 1, id);
      PollTakes(before, i, id, Never);
      PollSame(before, i, id, Never);
    }
  }

  lemma {:induction false} RunMirrored(nics: seq<Nic>, acts: seq<Act>, k: nat) returns (es: seq<Event<Cqe>>)
    requires IsRun(nics, acts) && k <= |acts|
    ensures Mirrors(es, nics, acts, k)
  {
    if k == 0 {
      es := [];
      assert forall id: U32 :: MirrorsFor(es, nics, acts, k, id);
    } else {
      hide Mirrors, Conservation.Step, Pushed, Push;
      var before := RunMirrored(nics, acts, k - 1);
      var nic := nics[k - 1];
      assert Enabled(nic, acts[k - 1]) && nics[k] == Do(nic, acts[k - 1]);
      match acts[k - 1] {
        case Happens(e) =>
          EventRaises(nic, e);
          var cs :| Raises(nic, nics[k], cs);
          es := before + Arrivals(cs);
          RaisedMirrored(before, nics, acts, k, cs);
        case Polls(i) =>
          es := before + [Poll(i)];
          PollMirrored(before, nics, acts, k, i);
      }
    }
  }

  /**
   For every run of the NIC: the completions polled from a JFC below 512, followed by those queued,
   are those the NIC raised for it, if and only if none was raised when its queue held 256 and none
   was polled under another id. The i-th record polled is then the i-th of them in every field.
   */
  lemma PolledIsRaised(nics: seq<Nic>, acts: seq<Act>, k: nat, id: U32)
    requires IsRun(nics, acts) && k <= |acts| && id < JFC_SLOTS
    ensures var got, raised := Got(nics, acts, k, id), RaisedFor(nics[k].log, id);
      var lossless := Overflows(nics, k, id) == 0 && Diversions(nics, acts, k, id) == 0;
      && (got + Queue(nics[k].queues, id) == raised <==> lossless)
      && |got| + |Queue(nics[k].queues, id)| + Overflows(nics, k, id) + Diversions(nics, acts, k, id) == |raised|
      && (lossless ==> forall i :: 0 <= i < |got| ==> DecodeSlot(EncodeCqe(got[i])) == Completion.Seen(raised[i]))
  {
    var es := RunMirrored(nics, acts, k);
    hide IsRun, Queue, Lost, Diverted, Overflows, Diversions, Got, RaisedFor, After, PolledFrom, ArrivedFor;
    assert MirrorsFor(es, nics, acts, k, id);
    ChannelIsFifo(es, id, Never);
    var got, raised := Got(nics, acts, k, id), RaisedFor(nics[k].log, id);
    if Overflows(nics, k, id) == 0 && Diversions(nics, acts, k, id) == 0 {
      forall i | 0 <= i < |got| ensures DecodeSlot(EncodeCqe(got[i])) == Completion.Seen(raised[i]) {
        assert (got + Queue(nics[k].queues, id))[i] == got[i];
        CqeRoundTrip(got[i]);
      }
    }
  }
}
