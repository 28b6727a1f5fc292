/**
 Accounting over whole runs of the data plane: every executed WR is completed once or still
 pending, and exactly which receives are used, queued, dropped or used twice.
 */
module Conservation {
  import opened Words
  import opened GuestMemory
  import opened MrAccess
  import opened PeerPacket
  import opened JfcQueue
  import opened Completion
  import opened DataPlane

  /** What identifies a WR in its send-side completion. */
  datatype SendTag = SendTag(jfc: U32, uctx: U64, op: Byte, len: U32)
  /** What identifies a receive in its receive-side completion. */
  datatype RecvTag = RecvTag(jfc: U32, uctx: U64)

  ghost function One(b: bool): nat { if b then 1 else 0 }

  /** How many send-side completions of a log carry the tag. */
  ghost function Sent(log: seq<Raised>, t: SendTag): nat {
    if log == [] then 0
    else
      var x := log[|log| - 1];
      Sent(log[..|log| - 1], t) + One(x.cqe.sr == 0 && SendTag(x.jfc, x.cqe.uctx, x.cqe.op, x.cqe.len) == t)
  }

  /** How many receive-side completions of a log carry the tag: one for each use of a receive. */
  ghost function Used(log: seq<Raised>, t: RecvTag): nat {
    if log == [] then 0
    else
      var x := log[|log| - 1];
      Used(log[..|log| - 1], t) + One(x.cqe.sr != 0 && RecvTag(x.jfc, x.cqe.uctx) == t)
  }

  ghost function PendingTag(p: Pending): SendTag { SendTag(p.jfc, p.uctx, p.op, p.len) }
  ghost function WrTag(wr: Wr): SendTag { SendTag(wr.sendJfc, wr.uctx, wr.op, wr.len) }
  ghost function TagOf(r: Recv): RecvTag { RecvTag(r.jfc, r.uctx) }

  /** How many elements of a list carry the tag. */
  ghost function Tally<T, U>(xs: seq<T>, tag: T -> U, t: U): nat {
    if xs == [] then 0 else One(tag(xs[0]) == t) + Tally(xs[1..], tag, t)
  }

  /** Everything that can happen to the NIC; the host may also change memory and pop queues. */
  datatype Event =
    | Doorbell(ctx: nat, wr: Wr)
    | RecvDoorbell(recv: Recv)
    | FromPeer(pkt: Pkt)
    | RegisterMr(token: U32, vaBase: U64, len: U64, ttbr0: U64)
    | Host(ram: Ram, queues: Queues<Cqe>)

  ghost predicate EventOk(e: Event) { e.FromPeer? ==> |e.pkt.payload| < WORD32 }

  function Step(nic: Nic, e: Event): Nic
    requires e.FromPeer? ==> |e.pkt.payload| < WORD32
  {
    match e
    case Doorbell(ctx, wr) => Exec(nic, ctx, wr)
    case RecvDoorbell(r) => PostRecv(nic, r)
    case FromPeer(p) => PeerApply(nic, p)
    case RegisterMr(t, va, len, ttbr0) => nic.(mrs := Register(nic.mrs, t, va, len, ttbr0))
    case Host(ram, queues) => nic.(ram := ram, queues := queues)
  }

  ghost predicate EventsOk(es: seq<Event>) { forall i :: 0 <= i < |es| ==> EventOk(es[i]) }

  ghost function Run(nic: Nic, es: seq<Event>): Nic
    requires EventsOk(es)
  {
    if es == [] then nic else Step(Run(nic, es[..|es| - 1]), es[|es| - 1])
  }

  /** How many WRs executed in a run carry the tag. */
  ghost function Executed(es: seq<Event>, t: SendTag): nat {
    if es == [] then 0
    else Executed(es[..|es| - 1], t) + One(es[|es| - 1].Doorbell? && WrTag(es[|es| - 1].wr) == t)
  }

  // ---- lists ----

  lemma {:induction false} TallyAppend<T, U>(xs: seq<T>, ys: seq<T>, tag: T -> U, t: U)
    ensures Tally(xs + ys, tag, t) == Tally(xs, tag, t) + Tally(ys, tag, t)
  {
    if xs == [] {
      assert xs + ys == ys;
    } else {
      TallyAppend(xs[1..], ys, tag, t);
      assert (xs + ys)[1..] == xs[1..] + ys;
    }
  }

  lemma TallyWithout<T, U>(xs: seq<T>, i: nat, tag: T -> U, t: U)
    requires i < |xs|
    ensures Tally(xs, tag, t) == Tally(Without(xs, i), tag, t) + One(tag(xs[i]) == t)
  {
    TallyAppend(xs[..i], xs[i..], tag, t);
    TallyAppend(xs[..i], xs[i + 1..], tag, t);
    assert xs == xs[..i] + xs[i..] && xs[i..][1..] == xs[i + 1..];
  }

  lemma TallyPush<T, U>(xs: seq<T>, x: T, tag: T -> U, t: U)
    ensures Tally(xs + [x], tag, t) == Tally(xs, tag, t) + One(tag(x) == t)
  {
    TallyAppend(xs, [x], tag, t);
    assert [x][1..] == [];
  }

  // ---- one step ----

  /** The books: WRs completed or pending under a tag, and receives used or queued under a tag. */
  ghost function Sends(nic: Nic, t: SendTag): nat { Sent(nic.log, t) + Tally(nic.pending, PendingTag, t) }
  ghost function Receives(nic: Nic, u: RecvTag): nat { Used(nic.log, u) + Tally(nic.recvs, TagOf, u) }

  lemma CompleteBooks(nic: Nic, jfc: U32, c: Cqe, t: SendTag, u: RecvTag)
    ensures Sends(Complete(nic, jfc, c), t) == Sends(nic, t) + One(c.sr == 0 && SendTag(jfc, c.uctx, c.op, c.len) == t)
    ensures Receives(Complete(nic, jfc, c), u) == Receives(nic, u) + One(c.sr != 0 && RecvTag(jfc, c.uctx) == u)
  {
    var log := nic.log + [Raised(jfc, c)];
    assert log[..|log| - 1] == nic.log;
  }

  lemma ConsumeBooks(nic: Nic, i: nat, len: U32, op: Byte, iv: Byte, imm: U32, ok: bool, t: SendTag, u: RecvTag)
    requires i < |nic.recvs|
    ensures Sends(Consume(nic, i, len, op, iv, imm, ok), t) == Sends(nic, t)
    ensures Receives(Consume(nic, i, len, op, iv, imm, ok), u) == Receives(nic, u)
  {
    var r := nic.recvs[i];
    TallyWithout(nic.recvs, i, TagOf, u);
    CompleteBooks(nic.(recvs := Without(nic.recvs, i)), r.jfc, Cqe(len, op, r.uctx, 1, iv, imm, ok), t, u);
  }

  lemma DeliverBooks(nic: Nic, s: Pending, r: Recv, t: SendTag, u: RecvTag)
    ensures Sends(Deliver(nic, s, r), t) == Sends(nic, t) + One(PendingTag(s) == t)
    ensures Receives(Deliver(nic, s, r), u) == Receives(nic, u) + One(TagOf(r) == u)
  {
    var w := if s.len == 0 then Written(nic.ram, false) else Move(nic, r.tok, r.va, s.tok, s.va, s.len);
    var imm := s.op == OP_SEND_IMM;
    var c1 := SendCqe(s.len, s.op, s.uctx, w.ok);
    var c2 := Cqe(s.len, s.op, r.uctx, 1, if imm then 1 else 0, if imm then s.imm else 0, w.ok);
    CompleteBooks(nic.(ram := w.ram), s.jfc, c1, t, u);
    CompleteBooks(Complete(nic.(ram := w.ram), s.jfc, c1), r.jfc, c2, t, u);
  }

  /** A WR adds its own tag to the sends, and nothing to the receives. */
  ghost predicate Balanced(nic: Nic, nic': Nic, wr: Wr, t: SendTag, u: RecvTag) {
    Sends(nic', t) == Sends(nic, t) + One(WrTag(wr) == t) && Receives(nic', u) == Receives(nic, u)
  }

  /** A WR that ends in one send-side completion and leaves both queues alone. */
  lemma CompletedBalanced(nic: Nic, n1: Nic, wr: Wr, ok: bool, t: SendTag, u: RecvTag)
    requires n1.log == nic.log && n1.pending == nic.pending && n1.recvs == nic.recvs
    ensures Balanced(nic, Complete(n1, wr.sendJfc, SendCqe(wr.len, wr.op, wr.uctx, ok)), wr, t, u)
  {
    CompleteBooks(n1, wr.sendJfc, SendCqe(wr.len, wr.op, wr.uctx, ok), t, u);
  }

  lemma WriteBalanced(nic: Nic, wr: Wr, t: SendTag, u: RecvTag)
    ensures Balanced(nic, ExecWrite(nic, wr), wr, t, u)
  {
    if wr.len > 0 && wr.remTok in nic.mrs {
      var w := Move(nic, wr.remTok, wr.remVa, wr.locTok, wr.locVa, wr.len);
      CompletedBalanced(nic, nic.(ram := w.ram), wr, w.ok, t, u);
      var n1 := Complete(nic.(ram := w.ram), wr.sendJfc, SendCqe(wr.len, wr.op, wr.uctx, w.ok));
      var i := FirstRecv(nic.recvs, wr.dcna);
      if wr.op == OP_WRITE_IMM && i < |nic.recvs| {
        ConsumeBooks(n1, i, wr.len, OP_WRITE_IMM, 1, wr.imm, w.ok, t, u);
      }
    } else {
      var data := MrRead(nic.ram, nic.mrs, wr.locTok, wr.locVa, wr.len);
      CompletedBalanced(nic, nic, wr, false, t, u);
      if data.Some? {
        var n1 := PeerSend(nic, Pkt(wr.op, wr.dcna, wr.remTok, wr.remVa, wr.imm, wr.order, data.value));
        CompletedBalanced(nic, n1, wr, true, t, u);
      }
    }
  }

  lemma SendBalanced(nic: Nic, ctx: nat, wr: Wr, t: SendTag, u: RecvTag)
    ensures Balanced(nic, ExecSend(nic, ctx, wr), wr, t, u)
  {
    var i := FirstRecv(nic.recvs, wr.dcna);
    if i < |nic.recvs| {
      DeliverBooks(nic.(recvs := Without(nic.recvs, i)), AsPending(ctx, wr), nic.recvs[i], t, u);
      TallyWithout(nic.recvs, i, TagOf, u);
    } else if nic.hasPeer {
      var data := MrRead(nic.ram, nic.mrs, wr.locTok, wr.locVa, wr.len);
      var n1 := if data.None? then nic
                else PeerSend(nic, Pkt(wr.op, wr.dcna, 0, 0, wr.imm, wr.order, data.value));
      CompletedBalanced(nic, n1, wr, true, t, u);
    } else {
      TallyPush(nic.pending, AsPending(ctx, wr), PendingTag, t);
    }
  }

  lemma ReadBalanced(nic: Nic, wr: Wr, t: SendTag, u: RecvTag)
    ensures Balanced(nic, ExecRead(nic, wr), wr, t, u)
  {
    var w := if wr.len == 0 then Written(nic.ram, false)
             else Move(nic, wr.locTok, wr.locVa, wr.remTok, wr.remVa, wr.len);
    CompletedBalanced(nic, nic.(ram := w.ram), wr, w.ok, t, u);
  }

  lemma AtomicBalanced(nic: Nic, wr: Wr, t: SendTag, u: RecvTag)
    ensures Balanced(nic, ExecAtomic(nic, wr), wr, t, u)
  {
    var w := AtomicUpdate(nic, wr);
    CompletedBalanced(nic, nic.(ram := w.ram), wr, w.ok, t, u);
  }

  /** Whatever its opcode and however it ends, a WR is completed once or pending once. */
  lemma ExecBalanced(nic: Nic, ctx: nat, wr: Wr, t: SendTag, u: RecvTag)
    ensures Balanced(nic, Exec(nic, ctx, wr), wr, t, u)
  {
    if wr.op == OP_WRITE || wr.op == OP_WRITE_IMM {
      WriteBalanced(nic, wr, t, u);
    } else if wr.op == OP_READ {
      ReadBalanced(nic, wr, t, u);
    } else if OP_CAS <= wr.op <= OP_FXOR {
      AtomicBalanced(nic, wr, t, u);
    } else if wr.op == OP_SEND || wr.op == OP_SEND_IMM {
      SendBalanced(nic, ctx, wr, t, u);
    } else {
      CompletedBalanced(nic, nic, wr, false, t, u);
    }
  }

  lemma PeerBalanced(nic: Nic, p: Pkt, t: SendTag, u: RecvTag)
    requires |p.payload| < WORD32
    ensures Sends(PeerApply(nic, p), t) == Sends(nic, t)
    ensures Receives(PeerApply(nic, p), u) == Receives(nic, u)
  {
    hide Deposit, MrWrite, Consume, FirstRecv;
    var i := FirstRecv(nic.recvs, p.dcna);
    var len: U32 := |p.payload|;
    if p.op == OP_WRITE || p.op == OP_WRITE_IMM {
      var w := if len == 0 then Written(nic.ram, false) else Deposit(nic, p.payload, p.rtoken, p.rva);
      if p.op == OP_WRITE_IMM && i < |nic.recvs| {
        ConsumeBooks(nic.(ram := w.ram), i, len, p.op, 1, p.imm, w.ok, t, u);
      }
    } else if (p.op == OP_SEND || p.op == OP_SEND_IMM) && i < |nic.recvs| {
      var r := nic.recvs[i];
      var w := if len == 0 then MrWrite(nic.ram, nic.mrs, r.tok, r.va, [])
               else Deposit(nic, p.payload, r.tok, r.va);
      ConsumeBooks(nic.(ram := w.ram), i, len, p.op, if p.op == OP_SEND_IMM then 1 else 0, p.imm, w.ok, t, u);
    }
  }

  /** The receive queue is full, so posting this receive drops the oldest one. */
  ghost function Dropped(nic: Nic, u: RecvTag): nat {
    One(|nic.recvs| >= RECV_MAX && TagOf(nic.recvs[0]) == u)
  }

  /** A SEND is pending on the jetty of the receive being posted. */
  ghost predicate Awaited(nic: Nic, r: Recv) { FirstPending(nic.pending, r.jetty) < |nic.pending| }

  /** A receive that serves a pending SEND is used and stays queued as well. */
  lemma PostRecvBooks(nic: Nic, r: Recv, t: SendTag, u: RecvTag)
    ensures Sends(PostRecv(nic, r), t) == Sends(nic, t)
    ensures Receives(PostRecv(nic, r), u) + Dropped(nic, u)
         == Receives(nic, u) + One(TagOf(r) == u) + One(Awaited(nic, r) && TagOf(r) == u)
  {
    hide Deliver, FirstPending, Without;
    var rs := nic.recvs + [r];
    var n1 := nic.(recvs := if |rs| > RECV_MAX then rs[1..] else rs);
    TallyPush(nic.recvs, r, TagOf, u);
    var i := FirstPending(nic.pending, r.jetty);
    if i < |nic.pending| {
      TallyWithout(nic.pending, i, PendingTag, t);
      DeliverBooks(n1.(pending := Without(nic.pending, i)), nic.pending[i], r, t, u);
    }
  }

  // ---- whole runs ----

  lemma StepSends(nic: Nic, e: Event, t: SendTag)
    requires EventOk(e)
    ensures Sends(Step(nic, e), t) == Sends(nic, t) + One(e.Doorbell? && WrTag(e.wr) == t)
  {
    var u := RecvTag(0, 0);
    match e
    case Doorbell(ctx, wr) => ExecBalanced(nic, ctx, wr, t, u);
    case RecvDoorbell(r) => PostRecvBooks(nic, r, t, u);
    case FromPeer(p) => PeerBalanced(nic, p, t, u);
    case RegisterMr(_, _, _, _) =>
    case Host(_, _) =>
  }

  /**
   Completion conservation: after every run the send-side completions raised plus the SENDs
   still pending are, tag by tag, those there were plus the WRs executed.
   */
  lemma {:induction false} EveryWrCompletesOnce(nic: Nic, es: seq<Event>, t: SendTag)
    requires EventsOk(es)
    ensures Sent(Run(nic, es).log, t) + Tally(Run(nic, es).pending, PendingTag, t)
         == Sent(nic.log, t) + Tally(nic.pending, PendingTag, t) + Executed(es, t)
    decreases |es|
  {
    if es == [] {
    } else {
      EveryWrCompletesOnce(nic, es[..|es| - 1], t);
      StepSends(Run(nic, es[..|es| - 1]), es[|es| - 1], t);
    }
  }

  /** Receives posted under a tag; and those of them posted while a SEND awaited them; and drops. */
  ghost function Posted(es: seq<Event>, u: RecvTag): nat {
    if es == [] then 0
    else Posted(es[..|es| - 1], u) + One(es[|es| - 1].RecvDoorbell? && TagOf(es[|es| - 1].recv) == u)
  }

  ghost function PostedAwaited(nic: Nic, es: seq<Event>, u: RecvTag): nat
    requires EventsOk(es)
  {
    if es == [] then 0
    else
      var before, e := es[..|es| - 1], es[|es| - 1];
      PostedAwaited(nic, before, u)
      + One(e.RecvDoorbell? && TagOf(e.recv) == u && Awaited(Run(nic, before), e.recv))
  }

  ghost function DroppedIn(nic: Nic, es: seq<Event>, u: RecvTag): nat
    requires EventsOk(es)
  {
    if es == [] then 0
    else
      var before, e := es[..|es| - 1], es[|es| - 1];
      DroppedIn(nic, before, u) + if e.RecvDoorbell? then Dropped(Run(nic, before), u) else 0
  }

  lemma StepReceives(nic: Nic, e: Event, u: RecvTag)
    requires EventOk(e)
    ensures Receives(Step(nic, e), u) + (if e.RecvDoorbell? then Dropped(nic, u) else 0)
         == Receives(nic, u) + One(e.RecvDoorbell? && TagOf(e.recv) == u)
            + One(e.RecvDoorbell? && TagOf(e.recv) == u && Awaited(nic, e.recv))
  {
    var t := SendTag(0, 0, 0, 0);
    match e
    case Doorbell(ctx, wr) => ExecBalanced(nic, ctx, wr, t, u);
    case RecvDoorbell(r) => PostRecvBooks(nic, r, t, u);
    case FromPeer(p) => PeerBalanced(nic, p, t, u);
    case RegisterMr(_, _, _, _) =>
    case Host(_, _) =>
  }

  /**
   Receive accounting, exact: uses plus queued plus dropped is posted plus those posted while
   a SEND was pending on their jetty, which serve it and stay queued.
   */
  lemma {:induction false} ReceiveAccounting(nic: Nic, es: seq<Event>, u: RecvTag)
    requires EventsOk(es)
    ensures Used(Run(nic, es).log, u) + Tally(Run(nic, es).recvs, TagOf, u) + DroppedIn(nic, es, u)
         == Used(nic.log, u) + Tally(nic.recvs, TagOf, u) + Posted(es, u) + PostedAwaited(nic, es, u)
    decreases |es|
  {
    if es == [] {
    } else {
      ReceiveAccounting(nic, es[..|es| - 1], u);
      StepReceives(Run(nic, es[..|es| - 1]), es[|es| - 1], u);
    }
  }

  /**
   From an idle NIC, receives of a tag are used more often than posted exactly when more of them
   were awaited than are still queued or were dropped; so never, when none was awaited.
   */
  lemma ReceiveUsedAtMostOnce(nic: Nic, es: seq<Event>, u: RecvTag)
    requires EventsOk(es) && nic.log == [] && nic.recvs == []
    ensures Used(Run(nic, es).log, u) <= Posted(es, u)
      <==> PostedAwaited(nic, es, u) <= Tally(Run(nic, es).recvs, TagOf, u) + DroppedIn(nic, es, u)
    ensures PostedAwaited(nic, es, u) == 0 ==> Used(Run(nic, es).log, u) <= Posted(es, u)
  {
    ReceiveAccounting(nic, es, u);
  }

  /**
   The bound fails without that condition: two SENDs around one receive both use it, on every
   idle NIC without a peer.
   */
  lemma AwaitedReceiveIsUsedTwice(nic: Nic, a: Wr, r: Recv, b: Wr)
    requires nic.log == [] && nic.recvs == [] && nic.pending == [] && !nic.hasPeer
    requires a.op == OP_SEND && b.op == OP_SEND && a.dcna == r.jetty == b.dcna
    ensures
      var es := [Doorbell(0, a), RecvDoorbell(r), Doorbell(0, b)];
      EventsOk(es) && Posted(es, TagOf(r)) == 1 && Used(Run(nic, es).log, TagOf(r)) == 2
  {
    hide Exec, PostRecv;
    var u, t := TagOf(r), SendTag(0, 0, 0, 0);
    var n1 := nic.(pending := [AsPending(0, a)]);
    SendWithoutRecv(nic, a);
    PostRecvBooks(n1, r, t, u);
    PostRecvQueues(n1, r);
    var n2 := PostRecv(n1, r);
    assert Tally(n2.recvs, TagOf, u) == 1 by { assert n2.recvs[1..] == []; }
    ExecBalanced(n2, 0, b, t, u);
    SendWithRecv(n2, b, r);
    RunOfThree(nic, Doorbell(0, a), RecvDoorbell(r), Doorbell(0, b), u);
  }

  lemma SendWithoutRecv(nic: Nic, a: Wr)
    requires nic.recvs == [] && nic.pending == [] && !nic.hasPeer && a.op == OP_SEND
    ensures Exec(nic, 0, a) == nic.(pending := [AsPending(0, a)])
  {
  }

  lemma PostRecvQueues(nic: Nic, r: Recv)
    requires nic.recvs == [] && |nic.pending| == 1 && nic.pending[0].jetty == r.jetty
    ensures PostRecv(nic, r).recvs == [r]
  {
  }

  lemma SendWithRecv(nic: Nic, b: Wr, r: Recv)
    requires nic.recvs == [r] && b.op == OP_SEND && b.dcna == r.jetty
    ensures Exec(nic, 0, b).recvs == []
  {
  }

  lemma RunOfThree(nic: Nic, e1: Event, e2: Event, e3: Event, u: RecvTag)
    requires EventOk(e1) && EventOk(e2) && EventOk(e3) && e1.Doorbell? && e2.RecvDoorbell? && e3.Doorbell?
    ensures EventsOk([e1, e2, e3]) && Run(nic, [e1, e2, e3]) == Step(Step(Step(nic, e1), e2), e3)
    ensures Posted([e1, e2, e3], u) == One(TagOf(e2.recv) == u)
  {
    var es := [e1, e2, e3];
    assert es[..2] == [e1, e2] && es[..2][..1] == [e1] && es[..2][..1][..0] == [];
    assert Run(nic, []) == nic;
    assert Run(nic, [e1]) == Step(nic, e1) by { assert [e1][..0] == []; }
    assert Run(nic, [e1, e2]) == Step(Run(nic, [e1]), e2) by { assert [e1, e2][..1] == [e1]; }
    assert Posted([e1], u) == 0;
    assert Posted([e1, e2], u) == One(TagOf(e2.recv) == u) by { assert [e1, e2][..1] == [e1]; }
  }
}
