/**
 Which receive a message gets: on each jetty, receives are used in the order they were posted.
 */
module ReceiveOrder {
  import opened Words
  import opened MrAccess
  import opened PeerPacket
  import opened DataPlane
  import opened Conservation

  /** The receives posted on a jetty, among these. */
  function OnJetty(rs: seq<Recv>, jetty: U32): seq<Recv> {
    if rs == [] then []
    else (if rs[0].jetty == jetty then [rs[0]] else []) + OnJetty(rs[1..], jetty)
  }

  /** The jetty whose receive an event uses, if it may use one. */
  function Wants(nic: Nic, e: Event): Option<U32> {
    match e
    case Doorbell(_, wr) =>
      if wr.op == OP_SEND || wr.op == OP_SEND_IMM || (wr.op == OP_WRITE_IMM && wr.len > 0 && wr.remTok in nic.mrs)
      then Some(wr.dcna) else None
    case FromPeer(p) =>
      if p.op == OP_SEND || p.op == OP_SEND_IMM || p.op == OP_WRITE_IMM then Some(p.dcna) else None
    case _ => None
  }

  predicate Takes(nic: Nic, e: Event) {
    var j := Wants(nic, e);
    j.Some? && FirstRecv(nic.recvs, j.value) < |nic.recvs|
  }

  /** The receive that an event takes: the oldest on the jetty it wants. */
  function Taken(nic: Nic, e: Event): Recv
    requires Takes(nic, e)
  {
    nic.recvs[FirstRecv(nic.recvs, Wants(nic, e).value)]
  }

  /** Posting a receive to a full queue drops the oldest of all. */
  predicate Drops(nic: Nic, e: Event) {
    e.RecvDoorbell? && |nic.recvs| >= RECV_MAX
  }

  // ---- what one event does to the queue ----

  function After(nic: Nic, e: Event): seq<Recv> {
    if Takes(nic, e) then Without(nic.recvs, FirstRecv(nic.recvs, Wants(nic, e).value))
    else if e.RecvDoorbell? then (if Drops(nic, e) then nic.recvs[1..] else nic.recvs) + [e.recv]
    else nic.recvs
  }

  lemma PeerSendRecvs(nic: Nic)
    ensures forall p: Pkt :: PeerSend(nic, p).recvs == nic.recvs
  {
  }

  lemma WriteRecvs(nic: Nic, ctx: nat, wr: Wr)
    requires wr.op == OP_WRITE || wr.op == OP_WRITE_IMM
    ensures ExecWrite(nic, wr).recvs == After(nic, Doorbell(ctx, wr))
  {
    hide Move, MrRead, FirstRecv, PeerSend;
    PeerSendRecvs(nic);
  }

  lemma SendRecvs(nic: Nic, ctx: nat, wr: Wr)
    requires wr.op == OP_SEND || wr.op == OP_SEND_IMM
    ensures ExecSend(nic, ctx, wr).recvs == After(nic, Doorbell(ctx, wr))
  {
    hide Move, MrRead, FirstRecv, PeerSend;
    PeerSendRecvs(nic);
  }

  lemma DoorbellRecvs(nic: Nic, ctx: nat, wr: Wr)
    ensures Exec(nic, ctx, wr).recvs == After(nic, Doorbell(ctx, wr))
  {
    if wr.op == OP_WRITE || wr.op == OP_WRITE_IMM {
      hide ExecWrite, After;
      WriteRecvs(nic, ctx, wr);
    } else if wr.op == OP_SEND || wr.op == OP_SEND_IMM {
      hide ExecSend, After;
      SendRecvs(nic, ctx, wr);
    } else {
      hide Move, AtomicUpdate;
    }
  }

  lemma PostRecvs(nic: Nic, r: Recv)
    ensures PostRecv(nic, r).recvs == After(nic, RecvDoorbell(r))
  {
    hide FirstPending, Move;
    assert nic.recvs != [] ==> (nic.recvs + [r])[1..] == nic.recvs[1..] + [r];
  }

  lemma PeerRecvs(nic: Nic, p: Pkt)
    requires |p.payload| < WORD32
    ensures PeerApply(nic, p).recvs == After(nic, FromPeer(p))
  {
    hide Deposit, MrWrite, FirstRecv;
  }

  lemma EventRecvs(nic: Nic, e: Event)
    requires EventOk(e)
    ensures Step(nic, e).recvs == After(nic, e)
  {
    hide Exec, PostRecv, PeerApply;
    match e
    case Doorbell(ctx, wr) => DoorbellRecvs(nic, ctx, wr);
    case RecvDoorbell(r) => PostRecvs(nic, r);
    case FromPeer(p) => PeerRecvs(nic, p);
    case _ =>
  }

  /** A log that ends in the receive-side completion of a receive. */
  predicate EndsWith(log: seq<Raised>, log': seq<Raised>, r: Recv) {
    && |log'| > |log| && log <= log'
    && var x := log'[|log'| - 1];
       x.jfc == r.jfc && x.cqe.uctx == r.uctx && x.cqe.sr == 1
  }

  lemma WriteCompletes(nic: Nic, wr: Wr)
    requires wr.op == OP_WRITE_IMM && wr.len > 0 && wr.remTok in nic.mrs
    requires FirstRecv(nic.recvs, wr.dcna) < |nic.recvs|
    ensures EndsWith(nic.log, ExecWrite(nic, wr).log, nic.recvs[FirstRecv(nic.recvs, wr.dcna)])
  {
    hide Move, FirstRecv;
  }

  lemma SendCompletes(nic: Nic, ctx: nat, wr: Wr)
    requires FirstRecv(nic.recvs, wr.dcna) < |nic.recvs|
    ensures EndsWith(nic.log, ExecSend(nic, ctx, wr).log, nic.recvs[FirstRecv(nic.recvs, wr.dcna)])
  {
    hide Move, FirstRecv;
  }

  lemma PeerCompletes(nic: Nic, p: Pkt)
    requires |p.payload| < WORD32 && FirstRecv(nic.recvs, p.dcna) < |nic.recvs|
    requires p.op == OP_SEND || p.op == OP_SEND_IMM || p.op == OP_WRITE_IMM
    ensures EndsWith(nic.log, PeerApply(nic, p).log, nic.recvs[FirstRecv(nic.recvs, p.dcna)])
  {
    hide Deposit, MrWrite, FirstRecv;
  }

  /** The event that takes a receive completes it: last in the log, with its JFC and user context. */
  lemma TakenCompletes(nic: Nic, e: Event)
    requires EventOk(e) && Takes(nic, e)
    ensures EndsWith(nic.log, Step(nic, e).log, Taken(nic, e))
  {
    hide ExecWrite, ExecSend, PeerApply, FirstRecv, EndsWith;
    match e
    case Doorbell(ctx, wr) =>
      if wr.op == OP_WRITE_IMM {
        WriteCompletes(nic, wr);
      } else {
        SendCompletes(nic, ctx, wr);
      }
    case FromPeer(p) => PeerCompletes(nic, p);
  }

  // ---- one jetty ----

  lemma {:induction false} FirstOnJetty(rs: seq<Recv>, i: nat, jetty: U32)
    requires i < |rs| && forall k :: 0 <= k < i ==> rs[k].jetty != rs[i].jetty
    ensures OnJetty(rs, rs[i].jetty) != [] && OnJetty(rs, rs[i].jetty)[0] == rs[i]
    ensures OnJetty(Without(rs, i), jetty) == if rs[i].jetty == jetty then OnJetty(rs, jetty)[1..] else OnJetty(rs, jetty)
    decreases |rs|
  {
    if i == 0 {
      assert Without(rs, 0) == rs[1..];
    } else {
      assert rs[1..][i - 1] == rs[i];
      FirstOnJetty(rs[1..], i - 1, jetty);
      assert Without(rs, i)[1..] == Without(rs[1..], i - 1);
    }
  }

  lemma {:induction false} OnJettyAppend(rs: seq<Recv>, r: Recv, jetty: U32)
    ensures OnJetty(rs + [r], jetty) == OnJetty(rs, jetty) + if r.jetty == jetty then [r] else []
    decreases |rs|
  {
    if rs == [] {
      assert rs + [r] == [r] && [r][1..] == [];
    } else {
      var rest, last := OnJetty(rs[1..], jetty), if r.jetty == jetty then [r] else [];
      assert (rs + [r])[0] == rs[0] && (rs + [r])[1..] == rs[1..] + [r];
      OnJettyAppend(rs[1..], r, jetty);
      assert [rs[0]] + (rest + last) == ([rs[0]] + rest) + last;
    }
  }

  /** A receive that left the queue, used by a message or dropped. */
  datatype Exit = Used(recv: Recv) | Lost(recv: Recv)

  /** The receive of this jetty that an event makes leave the queue. */
  function Leaves(nic: Nic, e: Event, jetty: U32): seq<Exit> {
    if Takes(nic, e) then if Taken(nic, e).jetty == jetty then [Used(Taken(nic, e))] else []
    else if Drops(nic, e) then if nic.recvs[0].jetty == jetty then [Lost(nic.recvs[0])] else []
    else []
  }

  function Arrives(e: Event, jetty: U32): seq<Recv> {
    if e.RecvDoorbell? && e.recv.jetty == jetty then [e.recv] else []
  }

  function Recvs(xs: seq<Exit>): (rs: seq<Recv>)
    ensures |rs| == |xs|
  {
    seq(|xs|, i requires 0 <= i < |xs| => xs[i].recv)
  }

  /** On its jetty an event takes or drops the oldest receive, or adds the newest. */
  lemma EventOnJetty(nic: Nic, e: Event, jetty: U32)
    requires EventOk(e)
    ensures Recvs(Leaves(nic, e, jetty)) + OnJetty(Step(nic, e).recvs, jetty)
         == OnJetty(nic.recvs, jetty) + Arrives(e, jetty)
  {
    hide Step, FirstRecv, Without, OnJetty;
    EventRecvs(nic, e);
    var was := OnJetty(nic.recvs, jetty);
    if Takes(nic, e) {
      FirstOnJetty(nic.recvs, FirstRecv(nic.recvs, Wants(nic, e).value), jetty);
      assert was + [] == was;
      assert Taken(nic, e).jetty == jetty ==> was == [was[0]] + was[1..];
    } else if Drops(nic, e) {
      DropOnJetty(nic.recvs, e.recv, jetty);
    } else if e.RecvDoorbell? {
      OnJettyAppend(nic.recvs, e.recv, jetty);
      assert [] + (was + Arrives(e, jetty)) == was + Arrives(e, jetty);
    } else {
      assert [] + was == was + [];
    }
  }

  lemma DropOnJetty(rs: seq<Recv>, r: Recv, jetty: U32)
    requires rs != []
    ensures (if rs[0].jetty == jetty then [rs[0]] else []) + OnJetty(rs[1..] + [r], jetty)
         == OnJetty(rs, jetty) + if r.jetty == jetty then [r] else []
  {
    OnJettyAppend(rs[1..], r, jetty);
  }

  // ---- whole runs ----

  ghost function Exits(nic: Nic, es: seq<Event>, jetty: U32): seq<Exit>
    requires EventsOk(es)
  {
    if es == [] then []
    else
      var before := es[..|es| - 1];
      Exits(nic, before, jetty) + Leaves(Run(nic, before), es[|es| - 1], jetty)
  }

  function PostedOn(es: seq<Event>, jetty: U32): seq<Recv> {
    if es == [] then [] else PostedOn(es[..|es| - 1], jetty) + Arrives(es[|es| - 1], jetty)
  }

  /**
   First posted, first used: over every run, the receives that left the queue of a jetty, used or
   dropped, followed by those still queued, are those that were there and those posted, in order.
   So the i-th message that takes a receive of a jetty from the queue gets the i-th one not dropped.
   */
  lemma {:induction false} FirstPostedFirstUsed(nic: Nic, es: seq<Event>, jetty: U32)
    requires EventsOk(es)
    ensures Recvs(Exits(nic, es, jetty)) + OnJetty(Run(nic, es).recvs, jetty)
         == OnJetty(nic.recvs, jetty) + PostedOn(es, jetty)
    decreases |es|
  {
    hide Step, Leaves;
    if es == [] {
      assert Recvs([]) + OnJetty(nic.recvs, jetty) == OnJetty(nic.recvs, jetty) + [];
    } else {
      var before, e := es[..|es| - 1], es[|es| - 1];
      var n := Run(nic, before);
      FirstPostedFirstUsed(nic, before, jetty);
      EventOnJetty(n, e, jetty);
      hide Run, OnJetty, PostedOn, Exits;
      RunNext(nic, es, jetty);
      RecvsAppend(Exits(nic, before, jetty), Leaves(n, e, jetty));
      Regroup(Recvs(Exits(nic, before, jetty)), Recvs(Leaves(n, e, jetty)), OnJetty(Run(nic, es).recvs, jetty),
              OnJetty(n.recvs, jetty), Arrives(e, jetty), OnJetty(nic.recvs, jetty), PostedOn(before, jetty));
    }
  }

  lemma RunNext(nic: Nic, es: seq<Event>, jetty: U32)
    requires EventsOk(es) && es != []
    ensures var before, e := es[..|es| - 1], es[|es| - 1];
      && EventsOk(before) && Run(nic, es) == Step(Run(nic, before), e)
      && Exits(nic, es, jetty) == Exits(nic, before, jetty) + Leaves(Run(nic, before), e, jetty)
      && PostedOn(es, jetty) == PostedOn(before, jetty) + Arrives(e, jetty)
  {
    hide Step, Leaves;
  }

  lemma RecvsAppend(x: seq<Exit>, y: seq<Exit>)
    ensures Recvs(x + y) == Recvs(x) + Recvs(y)
  {
  }

  /** One step more: what leaves and what is left, against what was there and what came. */
  lemma Regroup(gone: seq<Recv>, leaves: seq<Recv>, now: seq<Recv>, was: seq<Recv>, comes: seq<Recv>,
                start: seq<Recv>, posted: seq<Recv>)
    requires gone + was == start + posted && leaves + now == was + comes
    ensures gone + leaves + now == start + (posted + comes)
  {
    assert gone + leaves + now == gone + (leaves + now);
    assert gone + (was + comes) == (gone + was) + comes;
    assert (start + posted) + comes == start + (posted + comes);
  }
}
