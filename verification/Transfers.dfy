/**
 What work requests do to memory and what their completions say: for local WRITE, READ and SEND
 and for packets from the peer, the exact condition of success, the bytes that arrive, and the
 bytes that cannot change.
 */
module Transfers {
  import opened Words
  import opened GuestMemory
  import opened PageTable
  import opened MrAccess
  import opened PipePacket
  import opened MrCopy
  import opened Protection
  import opened PeerPacket
  import opened JfcQueue
  import opened Completion
  import opened DataPlane
  import PeerWrite

  /** If both regions are known, the ranges do not wrap and the destination spares their page tables. */
  ghost predicate Clear(nic: Nic, dt: U32, dv: U64, st: U32, sv: U64, len: nat) {
    TableOk(nic.mrs) && (dt in nic.mrs && st in nic.mrs ==> Apart(nic.ram, nic.mrs, dt, dv, st, sv, len))
  }

  /** There is something to move, and both ranges lie in their regions and are mapped. */
  ghost predicate Movables(nic: Nic, dt: U32, dv: U64, st: U32, sv: U64, len: nat) {
    len > 0 && Mapped(nic.ram, nic.mrs, dt, dv, len) && Mapped(nic.ram, nic.mrs, st, sv, len)
  }

  /** The ranges share no physical byte, and the destination has no byte twice. */
  ghost predicate Separate(nic: Nic, dt: U32, dv: U64, st: U32, sv: U64, len: nat)
    requires dt in nic.mrs && st in nic.mrs
  {
    && Disjoint(MrPas(nic.ram, nic.mrs, st, sv, len), MrPas(nic.ram, nic.mrs, dt, dv, len))
    && Distinct(MrPas(nic.ram, nic.mrs, dt, dv, len))
  }

  /**
   From nic's memory to ram', the source range was moved to the destination: nothing else has
   changed, and if the move was possible the destination reads what the source held.
   */
  ghost predicate Carried(nic: Nic, ram': Ram, dt: U32, dv: U64, st: U32, sv: U64, len: nat) {
    && Confined(nic.ram, ram', nic.mrs, dt, dv, len)
    && (Movables(nic, dt, dv, st, sv, len) && Separate(nic, dt, dv, st, sv, len) ==>
          MrRead(ram', nic.mrs, dt, dv, len) == Some(Gather(nic.ram.bytes, MrPas(nic.ram, nic.mrs, st, sv, len))))
  }

  // ---- the two copies ----

  lemma UnknownFails(nic: Nic, dt: U32, dv: U64, st: U32, sv: U64, len: nat)
    requires len > 0 && !(dt in nic.mrs && st in nic.mrs)
    ensures Move(nic, dt, dv, st, sv, len) == Written(nic.ram, false)
  {
    hide ReadPieces, WritePieces, Land, Cleared, Packet;
    var buf := MrRead(nic.ram, nic.mrs, st, sv, len);
    if nic.pipe && buf.Some? {
      var landed := RouteStep(nic.ram, Hbm(), nic.mrs, buf.value, dt, dv);
    }
  }

  /** The pipeline copy succeeds exactly if the move is possible, and stays in its range. */
  lemma PipeCarries(nic: Nic, dt: U32, dv: U64, st: U32, sv: U64, len: nat)
    requires Clear(nic, dt, dv, st, sv, len) && len > 0 && dt in nic.mrs && st in nic.mrs
    ensures var p := PipeCopy(nic.ram, Hbm(), nic.mrs, dt, dv, st, sv, len);
      && (p.ok <==> Movables(nic, dt, dv, st, sv, len))
      && Confined(nic.ram, p.ram, nic.mrs, dt, dv, len)
  {
    var ram, mrs := nic.ram, nic.mrs;
    hide RouteFrom, Confined, Straight, Mapped, MrRead, MrPas, MrTablesSafe, Plus, Spares, TableOk;
    PlusZero(dv);
    PlusZero(sv);
    ConfinedSelf(ram, mrs, dt, dv, len);
    SourceWalks(ram, ram, mrs, dt, dv, st, sv, len);
    PartReads(ram, ram, mrs, st, sv, len, 0, len);
    var buf := MrRead(ram, mrs, st, sv, len);
    if buf.Some? {
      RouteConfined(ram, ram, Hbm(), mrs, buf.value, dt, dv, len, 0);
      RouteSucceeds(ram, ram, Hbm(), mrs, buf.value, dt, dv, len, 0);
    }
  }

  lemma MoveStatus(nic: Nic, dt: U32, dv: U64, st: U32, sv: U64, len: nat)
    requires Clear(nic, dt, dv, st, sv, len) && len > 0
    ensures var w := Move(nic, dt, dv, st, sv, len);
      && (w.ok <==> Movables(nic, dt, dv, st, sv, len))
      && Confined(nic.ram, w.ram, nic.mrs, dt, dv, len)
  {
    var ram, mrs := nic.ram, nic.mrs;
    if dt in mrs && st in mrs {
      PipeCarries(nic, dt, dv, st, sv, len);
      hide CopyMr, PipeCopy, Confined, Straight, Mapped, MrTablesSafe, Plus, Spares, TableOk;
      PlusZero(dv);
      PlusZero(sv);
      ConfinedSelf(ram, mrs, dt, dv, len);
      var start := if nic.pipe then PipeCopy(ram, Hbm(), mrs, dt, dv, st, sv, len).ram else ram;
      CopySucceeds(ram, start, mrs, dt, dv, st, sv, len, 0);
      CopyConfined(ram, start, mrs, dt, dv, len, 0, st, sv, len);
    } else {
      hide Move;
      UnknownFails(nic, dt, dv, st, sv, len);
      ConfinedSelf(ram, mrs, dt, dv, len);
    }
  }

  lemma MoveArrives(nic: Nic, dt: U32, dv: U64, st: U32, sv: U64, len: nat)
    requires Clear(nic, dt, dv, st, sv, len) && Movables(nic, dt, dv, st, sv, len) && Separate(nic, dt, dv, st, sv, len)
    ensures MrRead(Move(nic, dt, dv, st, sv, len).ram, nic.mrs, dt, dv, len)
      == Some(Gather(nic.ram.bytes, MrPas(nic.ram, nic.mrs, st, sv, len)))
  {
    var ram, mrs := nic.ram, nic.mrs;
    var data := Gather(ram.bytes, MrPas(ram, mrs, st, sv, len));
    assert Movable(ram, mrs, dt, dv, st, sv, len);
    hide CopyMr, PipeCopy, MrWrite, MrRead, MrPas, Mapped, MrTablesSafe, Scatter, Distinct, Disjoint, TableOk;
    PipeCopyIsCopy(ram, Hbm(), mrs, dt, dv, st, sv, len);
    TargetHead(ram, mrs, dt, dv, data, len);
    var pas := MrPas(ram, mrs, dt, dv, len);
    assert data[..len] == data && pas[..len] == pas;
    MrReadBack(ram, mrs, dt, dv, data);
  }

  lemma MappedKnown(nic: Nic, dt: U32, dv: U64, st: U32, sv: U64, len: nat)
    ensures Movables(nic, dt, dv, st, sv, len) ==> dt in nic.mrs && st in nic.mrs
  {
  }

  lemma MoveCarries(nic: Nic, dt: U32, dv: U64, st: U32, sv: U64, len: nat)
    requires Clear(nic, dt, dv, st, sv, len) && len > 0
    ensures var w := Move(nic, dt, dv, st, sv, len);
      (w.ok <==> Movables(nic, dt, dv, st, sv, len)) && Carried(nic, w.ram, dt, dv, st, sv, len)
  {
    hide Move, Confined, Mapped, MrRead, Clear;
    MoveStatus(nic, dt, dv, st, sv, len);
    MappedKnown(nic, dt, dv, st, sv, len);
    if Movables(nic, dt, dv, st, sv, len) && Separate(nic, dt, dv, st, sv, len) {
      MoveArrives(nic, dt, dv, st, sv, len);
    }
  }

  // ---- local WRITE and READ ----

  /** The i-th queued receive is the oldest on its jetty. */
  ghost predicate Oldest(rs: seq<Recv>, jetty: U32, i: nat) {
    i < |rs| && rs[i].jetty == jetty && forall k :: 0 <= k < i ==> rs[k].jetty != jetty
  }

  ghost predicate NoRecv(rs: seq<Recv>, jetty: U32) {
    forall k :: 0 <= k < |rs| ==> rs[k].jetty != jetty
  }

  lemma OldestIsFirst(rs: seq<Recv>, jetty: U32, i: nat)
    ensures Oldest(rs, jetty, i) ==> FirstRecv(rs, jetty) == i
    ensures NoRecv(rs, jetty) ==> FirstRecv(rs, jetty) == |rs|
  {
  }

  /** Nothing of the NIC but memory, completions and receives has changed. */
  ghost predicate SameElse(nic: Nic, nic': Nic) {
    && nic'.mrs == nic.mrs && nic'.pipe == nic.pipe && nic'.hasPeer == nic.hasPeer
    && nic'.tx == nic.tx && nic'.overrun == nic.overrun
  }

  /** WRITE to a region of this NIC: local range to remote range, and one completion with the outcome. */
  lemma LocalWrite(nic: Nic, ctx: nat, wr: Wr)
    requires wr.op == OP_WRITE && wr.remTok in nic.mrs
    requires Clear(nic, wr.remTok, wr.remVa, wr.locTok, wr.locVa, wr.len)
    ensures var nic', ok := Exec(nic, ctx, wr), Movables(nic, wr.remTok, wr.remVa, wr.locTok, wr.locVa, wr.len);
      && Carried(nic, nic'.ram, wr.remTok, wr.remVa, wr.locTok, wr.locVa, wr.len)
      && nic'.log == nic.log + [Raised(wr.sendJfc, Cqe(wr.len, OP_WRITE, wr.uctx, 0, 0, 0, ok))]
      && SameElse(nic, nic') && nic'.recvs == nic.recvs && nic'.pending == nic.pending
  {
    hide Move, Carried, Clear, Mapped, Push;
    if wr.len > 0 {
      MoveCarries(nic, wr.remTok, wr.remVa, wr.locTok, wr.locVa, wr.len);
    } else {
      NothingCarried(nic, wr.remTok, wr.remVa, wr.locTok, wr.locVa);
    }
  }

  lemma NothingCarried(nic: Nic, dt: U32, dv: U64, st: U32, sv: U64)
    ensures Carried(nic, nic.ram, dt, dv, st, sv, 0)
  {
  }

  /** WRITE_IMM does the same and completes the oldest receive of the jetty, with the immediate. */
  lemma LocalWriteImm(nic: Nic, ctx: nat, wr: Wr, i: nat)
    requires wr.op == OP_WRITE_IMM && wr.remTok in nic.mrs && wr.len > 0
    requires Clear(nic, wr.remTok, wr.remVa, wr.locTok, wr.locVa, wr.len)
    requires Oldest(nic.recvs, wr.dcna, i) || (i == |nic.recvs| && NoRecv(nic.recvs, wr.dcna))
    ensures var nic', ok := Exec(nic, ctx, wr), Movables(nic, wr.remTok, wr.remVa, wr.locTok, wr.locVa, wr.len);
      && Carried(nic, nic'.ram, wr.remTok, wr.remVa, wr.locTok, wr.locVa, wr.len)
      && SameElse(nic, nic') && nic'.pending == nic.pending
      && var sent := Raised(wr.sendJfc, Cqe(wr.len, OP_WRITE_IMM, wr.uctx, 0, 0, 0, ok));
         if i == |nic.recvs| then nic'.recvs == nic.recvs && nic'.log == nic.log + [sent]
         else
           var r := nic.recvs[i];
           && nic'.recvs == nic.recvs[..i] + nic.recvs[i + 1..]
           && nic'.log == nic.log + [sent, Raised(r.jfc, Cqe(wr.len, OP_WRITE_IMM, r.uctx, 1, 1, wr.imm, ok))]
  {
    hide Move, Carried, Clear, Mapped, Push, FirstRecv;
    OldestIsFirst(nic.recvs, wr.dcna, i);
    MoveCarries(nic, wr.remTok, wr.remVa, wr.locTok, wr.locVa, wr.len);
  }

  /** READ: remote range to local range, and one completion with the outcome. */
  lemma LocalRead(nic: Nic, ctx: nat, wr: Wr)
    requires wr.op == OP_READ && Clear(nic, wr.locTok, wr.locVa, wr.remTok, wr.remVa, wr.len)
    ensures var nic', ok := Exec(nic, ctx, wr), Movables(nic, wr.locTok, wr.locVa, wr.remTok, wr.remVa, wr.len);
      && Carried(nic, nic'.ram, wr.locTok, wr.locVa, wr.remTok, wr.remVa, wr.len)
      && nic'.log == nic.log + [Raised(wr.sendJfc, Cqe(wr.len, OP_READ, wr.uctx, 0, 0, 0, ok))]
      && SameElse(nic, nic') && nic'.recvs == nic.recvs && nic'.pending == nic.pending
  {
    hide Move, Carried, Clear, Mapped, Push;
    if wr.len > 0 {
      MoveCarries(nic, wr.locTok, wr.locVa, wr.remTok, wr.remVa, wr.len);
    } else {
      NothingCarried(nic, wr.locTok, wr.locVa, wr.remTok, wr.remVa);
    }
  }

  // ---- SEND to a receive of this NIC ----

  /** Both completions of a delivered SEND, the receive-side one with the immediate of a SEND_IMM. */
  function Delivered(s: Pending, r: Recv, ok: bool): seq<Raised> {
    [Raised(s.jfc, Cqe(s.len, s.op, s.uctx, 0, 0, 0, ok)),
     if s.op == OP_SEND_IMM then Raised(r.jfc, Cqe(s.len, s.op, r.uctx, 1, 1, s.imm, ok))
     else Raised(r.jfc, Cqe(s.len, s.op, r.uctx, 1, 0, 0, ok))]
  }

  lemma DeliverCarries(nic: Nic, s: Pending, r: Recv)
    requires Clear(nic, r.tok, r.va, s.tok, s.va, s.len)
    ensures var nic', ok := Deliver(nic, s, r), Movables(nic, r.tok, r.va, s.tok, s.va, s.len);
      && Carried(nic, nic'.ram, r.tok, r.va, s.tok, s.va, s.len)
      && nic'.log == nic.log + Delivered(s, r, ok)
      && SameElse(nic, nic') && nic'.recvs == nic.recvs && nic'.pending == nic.pending
  {
    hide Move, Carried, Clear, Mapped, Push;
    if s.len > 0 {
      MoveCarries(nic, r.tok, r.va, s.tok, s.va, s.len);
    } else {
      NothingCarried(nic, r.tok, r.va, s.tok, s.va);
    }
  }

  /** What a move says is about memory and regions only. */
  lemma SameMemory(n: Nic, nic: Nic, ram': Ram, dt: U32, dv: U64, st: U32, sv: U64, len: nat)
    requires n.ram == nic.ram && n.mrs == nic.mrs
    ensures Clear(n, dt, dv, st, sv, len) <==> Clear(nic, dt, dv, st, sv, len)
    ensures Movables(n, dt, dv, st, sv, len) <==> Movables(nic, dt, dv, st, sv, len)
    ensures Carried(n, ram', dt, dv, st, sv, len) <==> Carried(nic, ram', dt, dv, st, sv, len)
  {
    hide Apart, Confined, MrRead;
    MappedKnown(n, dt, dv, st, sv, len);
  }

  /** SEND: local range to the buffer of the oldest receive on its jetty, which leaves the queue. */
  lemma LocalSend(nic: Nic, ctx: nat, wr: Wr, i: nat)
    requires wr.op == OP_SEND || wr.op == OP_SEND_IMM
    requires Oldest(nic.recvs, wr.dcna, i)
    requires Clear(nic, nic.recvs[i].tok, nic.recvs[i].va, wr.locTok, wr.locVa, wr.len)
    ensures var r, nic' := nic.recvs[i], Exec(nic, ctx, wr);
      var ok := Movables(nic, r.tok, r.va, wr.locTok, wr.locVa, wr.len);
      && Carried(nic, nic'.ram, r.tok, r.va, wr.locTok, wr.locVa, wr.len)
      && nic'.log == nic.log + [
           Raised(wr.sendJfc, Cqe(wr.len, wr.op, wr.uctx, 0, 0, 0, ok)),
           if wr.op == OP_SEND_IMM then Raised(r.jfc, Cqe(wr.len, wr.op, r.uctx, 1, 1, wr.imm, ok))
           else Raised(r.jfc, Cqe(wr.len, wr.op, r.uctx, 1, 0, 0, ok))]
      && nic'.recvs == nic.recvs[..i] + nic.recvs[i + 1..]
      && SameElse(nic, nic') && nic'.pending == nic.pending
  {
    hide Deliver, Carried, Clear, Movables, FirstRecv;
    OldestIsFirst(nic.recvs, wr.dcna, i);
    var r, n := nic.recvs[i], nic.(recvs := Without(nic.recvs, i));
    SameMemory(n, nic, Exec(nic, ctx, wr).ram, r.tok, r.va, wr.locTok, wr.locVa, wr.len);
    DeliverCarries(n, AsPending(ctx, wr), r);
  }

  /** A SEND with neither a receive nor a peer waits: nothing moves and nothing completes. */
  lemma SendWaits(nic: Nic, ctx: nat, wr: Wr)
    requires wr.op == OP_SEND || wr.op == OP_SEND_IMM
    requires NoRecv(nic.recvs, wr.dcna) && !nic.hasPeer
    ensures var nic' := Exec(nic, ctx, wr);
      && nic'.ram == nic.ram && nic'.log == nic.log && nic'.recvs == nic.recvs && SameElse(nic, nic')
      && nic'.pending == nic.pending + [
           Pending(wr.dcna, wr.locTok, wr.locVa, wr.len, wr.op, wr.uctx, wr.imm, ctx, wr.sendJfc)]
  {
    hide FirstRecv;
    OldestIsFirst(nic.recvs, wr.dcna, 0);
  }

  /** A receive serves the SEND that has waited longest on its jetty, which leaves the queue. */
  lemma RecvServes(nic: Nic, r: Recv, i: nat)
    requires i < |nic.pending| && nic.pending[i].jetty == r.jetty
    requires forall k :: 0 <= k < i ==> nic.pending[k].jetty != r.jetty
    requires Clear(nic, r.tok, r.va, nic.pending[i].tok, nic.pending[i].va, nic.pending[i].len)
    ensures var s, nic' := nic.pending[i], PostRecv(nic, r);
      && Carried(nic, nic'.ram, r.tok, r.va, s.tok, s.va, s.len)
      && nic'.log == nic.log + Delivered(s, r, Movables(nic, r.tok, r.va, s.tok, s.va, s.len))
      && nic'.pending == nic.pending[..i] + nic.pending[i + 1..] && SameElse(nic, nic')
  {
    hide Deliver, Carried, Clear, Movables, FirstPending, Delivered;
    assert FirstPending(nic.pending, r.jetty) == i by { FirstPendingIs(nic.pending, r.jetty, i); }
    var rs, s := nic.recvs + [r], nic.pending[i];
    var n := nic.(recvs := if |rs| > RECV_MAX then rs[1..] else rs, pending := Without(nic.pending, i));
    SameMemory(n, nic, PostRecv(nic, r).ram, r.tok, r.va, s.tok, s.va, s.len);
    DeliverCarries(n, s, r);
  }

  lemma FirstPendingIs(ps: seq<Pending>, jetty: U32, i: nat)
    requires i < |ps| && ps[i].jetty == jetty && forall k :: 0 <= k < i ==> ps[k].jetty != jetty
    ensures FirstPending(ps, jetty) == i
  {
  }

  /** A receive that no SEND waits for is queued, and nothing else happens. */
  lemma RecvQueues(nic: Nic, r: Recv)
    requires forall k :: 0 <= k < |nic.pending| ==> nic.pending[k].jetty != r.jetty
    ensures var nic' := PostRecv(nic, r);
      && nic'.ram == nic.ram && nic'.log == nic.log && nic'.pending == nic.pending && SameElse(nic, nic')
      && nic'.recvs == if |nic.recvs| < 256 then nic.recvs + [r] else (nic.recvs + [r])[1..]
  {
  }

  // ---- packets from the peer ----

  /** If the region is known, the range does not wrap and holds none of its own descriptors. */
  ghost predicate Open(nic: Nic, dt: U32, dv: U64, len: nat) {
    TableOk(nic.mrs) && PageAligned(nic.ram.ranges)
    && (dt in nic.mrs ==> Straight(nic.mrs[dt], dv, len) && Spares(nic.ram, nic.mrs, dt, dv, len))
  }

  /** The bytes of a packet are in the range, if it could take them, and nothing else has changed. */
  ghost predicate Landed(nic: Nic, ram': Ram, data: seq<Byte>, dt: U32, dv: U64) {
    && Confined(nic.ram, ram', nic.mrs, dt, dv, |data|)
    && (Mapped(nic.ram, nic.mrs, dt, dv, |data|) && Distinct(MrPas(nic.ram, nic.mrs, dt, dv, |data|)) ==>
          MrRead(ram', nic.mrs, dt, dv, |data|) == Some(data))
  }

  lemma DepositStatus(nic: Nic, data: seq<Byte>, dt: U32, dv: U64)
    requires Open(nic, dt, dv, |data|) && data != []
    ensures var w := Deposit(nic, data, dt, dv);
      && (w.ok <==> Mapped(nic.ram, nic.mrs, dt, dv, |data|))
      && Confined(nic.ram, w.ram, nic.mrs, dt, dv, |data|)
  {
    var ram, mrs, len := nic.ram, nic.mrs, |data|;
    if dt in mrs {
      hide RouteFrom, Confined, Straight, Mapped, MrWrite, MrPas, MrTablesSafe, Plus, Spares, TableOk;
      PlusZero(dv);
      ConfinedSelf(ram, mrs, dt, dv, len);
      RouteConfined(ram, ram, Hbm(), mrs, data, dt, dv, len, 0);
      RouteSucceeds(ram, ram, Hbm(), mrs, data, dt, dv, len, 0);
      var start := if nic.pipe then PipeRoute(ram, Hbm(), mrs, data, dt, dv).ram else ram;
      PartConfined(ram, start, mrs, dt, dv, len, 0, data);
      PartWrites(ram, start, mrs, dt, dv, len, 0, data);
    } else {
      hide Land, Cleared, Packet, RouteFrom;
      var landed := RouteStep(ram, Hbm(), mrs, data, dt, dv);
      ConfinedSelf(ram, mrs, dt, dv, len);
    }
  }

  lemma DepositArrives(nic: Nic, data: seq<Byte>, dt: U32, dv: U64)
    requires Open(nic, dt, dv, |data|) && data != [] && Mapped(nic.ram, nic.mrs, dt, dv, |data|)
    requires Distinct(MrPas(nic.ram, nic.mrs, dt, dv, |data|))
    ensures MrRead(Deposit(nic, data, dt, dv).ram, nic.mrs, dt, dv, |data|) == Some(data)
  {
    assert Target(nic.ram, nic.mrs, dt, dv, |data|);
    hide Target, MrPas, Distinct, TableOk, Straight, Deposit, MrRead;
    PeerWrite.StoreReadsBack(nic, data, dt, dv);
  }

  lemma DepositLands(nic: Nic, data: seq<Byte>, dt: U32, dv: U64)
    requires Open(nic, dt, dv, |data|) && data != []
    ensures var w := Deposit(nic, data, dt, dv);
      (w.ok <==> Mapped(nic.ram, nic.mrs, dt, dv, |data|)) && Landed(nic, w.ram, data, dt, dv)
  {
    hide Deposit, Confined, MrRead, Open;
    DepositStatus(nic, data, dt, dv);
    if Mapped(nic.ram, nic.mrs, dt, dv, |data|) && Distinct(MrPas(nic.ram, nic.mrs, dt, dv, |data|)) {
      DepositArrives(nic, data, dt, dv);
    }
  }

  /** A WRITE packet fills its range; with an immediate it completes the oldest receive of the jetty. */
  lemma PeerWriteLands(nic: Nic, p: Pkt, i: nat)
    requires (p.op == OP_WRITE || p.op == OP_WRITE_IMM) && 0 < |p.payload| < WORD32
    requires Open(nic, p.rtoken, p.rva, |p.payload|)
    requires Oldest(nic.recvs, p.dcna, i) || (i == |nic.recvs| && NoRecv(nic.recvs, p.dcna))
    ensures var nic', ok := PeerApply(nic, p), Mapped(nic.ram, nic.mrs, p.rtoken, p.rva, |p.payload|);
      && Landed(nic, nic'.ram, p.payload, p.rtoken, p.rva)
      && SameElse(nic, nic') && nic'.pending == nic.pending
      && if p.op == OP_WRITE || i == |nic.recvs| then nic'.recvs == nic.recvs && nic'.log == nic.log
         else
           var r := nic.recvs[i];
           && nic'.recvs == nic.recvs[..i] + nic.recvs[i + 1..]
           && nic'.log == nic.log + [Raised(r.jfc, Cqe(|p.payload|, OP_WRITE_IMM, r.uctx, 1, 1, p.imm, ok))]
  {
    hide Deposit, Landed, Open, Mapped, Push, FirstRecv;
    OldestIsFirst(nic.recvs, p.dcna, i);
    DepositLands(nic, p.payload, p.rtoken, p.rva);
  }

  /** A SEND packet fills the buffer of the oldest receive of its jetty and completes it. */
  lemma PeerSendLands(nic: Nic, p: Pkt, i: nat)
    requires (p.op == OP_SEND || p.op == OP_SEND_IMM) && 0 < |p.payload| < WORD32 && Oldest(nic.recvs, p.dcna, i)
    requires Open(nic, nic.recvs[i].tok, nic.recvs[i].va, |p.payload|)
    ensures var r, nic' := nic.recvs[i], PeerApply(nic, p);
      var ok := Mapped(nic.ram, nic.mrs, r.tok, r.va, |p.payload|);
      && Landed(nic, nic'.ram, p.payload, r.tok, r.va)
      && nic'.recvs == nic.recvs[..i] + nic.recvs[i + 1..]
      && nic'.log == nic.log + [
           Raised(r.jfc, Cqe(|p.payload|, p.op, r.uctx, 1, if p.op == OP_SEND_IMM then 1 else 0, p.imm, ok))]
      && SameElse(nic, nic') && nic'.pending == nic.pending
  {
    hide Deposit, Landed, Open, Mapped, Push, FirstRecv;
    OldestIsFirst(nic.recvs, p.dcna, i);
    DepositLands(nic, p.payload, nic.recvs[i].tok, nic.recvs[i].va);
  }

  /** A SEND packet without a receive is lost: nothing changes. */
  lemma PeerSendLost(nic: Nic, p: Pkt)
    requires (p.op == OP_SEND || p.op == OP_SEND_IMM) && |p.payload| < WORD32 && NoRecv(nic.recvs, p.dcna)
    ensures PeerApply(nic, p) == nic
  {
    hide FirstRecv;
    OldestIsFirst(nic.recvs, p.dcna, 0);
  }

  // ---- requests that move nothing here ----

  /** An empty WRITE, or one to an unknown region without a peer, fails and does nothing else. */
  lemma WriteFails(nic: Nic, ctx: nat, wr: Wr)
    requires (wr.op == OP_WRITE || wr.op == OP_WRITE_IMM) && (wr.len == 0 || (wr.remTok !in nic.mrs && !nic.hasPeer))
    ensures var nic' := Exec(nic, ctx, wr);
      && nic'.log == nic.log + [Raised(wr.sendJfc, Cqe(wr.len, wr.op, wr.uctx, 0, 0, 0, false))]
      && nic'.ram == nic.ram && nic'.recvs == nic.recvs && nic'.pending == nic.pending && SameElse(nic, nic')
  {
    hide Push;
  }

  /** An opcode the NIC does not know fails, and does nothing else. */
  lemma UnknownOpcodeFails(nic: Nic, ctx: nat, wr: Wr)
    requires wr.op !in {0x00, 0x01, 0x10, 0x20, 0x21, 0x22, 0x23, 0x24, 0x25, 0x26, 0x40, 0x41}
    ensures var nic' := Exec(nic, ctx, wr);
      && nic'.log == nic.log + [Raised(wr.sendJfc, Cqe(wr.len, wr.op, wr.uctx, 0, 0, 0, false))]
      && nic'.ram == nic.ram && nic'.recvs == nic.recvs && nic'.pending == nic.pending && SameElse(nic, nic')
  {
    hide Push;
  }

  /** Every byte of the range is allowed and in memory. */
  ghost predicate Readable(nic: Nic, tok: U32, va: U64, len: nat) {
    tok in nic.mrs && Granted(nic.mrs[tok], va, len) && Resident(nic.ram, MrPas(nic.ram, nic.mrs, tok, va, len))
  }

  /** The bytes of a range. */
  ghost function Bytes(nic: Nic, tok: U32, va: U64, len: nat): (data: seq<Byte>)
    requires tok in nic.mrs
    ensures |data| == len
  {
    Gather(nic.ram.bytes, MrPas(nic.ram, nic.mrs, tok, va, len))
  }

  lemma ReadableRead(nic: Nic, tok: U32, va: U64, len: nat)
    requires TableOk(nic.mrs) && PageAligned(nic.ram.ranges)
    ensures MrRead(nic.ram, nic.mrs, tok, va, len)
      == if Readable(nic, tok, va, len) then Some(Bytes(nic, tok, va, len)) else None
  {
    hide MrPas, MrRead, Granted, Resident;
    MrReadSucceedsExactly(nic.ram, nic.mrs, tok, va, len);
    if MrRead(nic.ram, nic.mrs, tok, va, len).Some? {
      MrReadIsBytewise(nic.ram, nic.mrs, tok, va, len);
    }
  }

  /** A WRITE for the peer whose source cannot be read fails, and nothing is sent. */
  lemma CrossWriteFails(nic: Nic, ctx: nat, wr: Wr)
    requires PeerWrite.CrossNode(nic, wr) && TableOk(nic.mrs) && PageAligned(nic.ram.ranges)
    requires !Readable(nic, wr.locTok, wr.locVa, wr.len)
    ensures var nic' := Exec(nic, ctx, wr);
      && nic'.log == nic.log + [Raised(wr.sendJfc, Cqe(wr.len, wr.op, wr.uctx, 0, 0, 0, false))]
      && nic'.ram == nic.ram && nic'.recvs == nic.recvs && nic'.pending == nic.pending && SameElse(nic, nic')
  {
    hide MrRead, Readable, Push, TableOk;
    ReadableRead(nic, wr.locTok, wr.locVa, wr.len);
  }

  /**
   A SEND for the peer completes with success in any case. Its bytes are on the ring exactly if
   they can be read and are at most 8148.
   */
  lemma CrossSend(nic: Nic, ctx: nat, wr: Wr)
    requires (wr.op == OP_SEND || wr.op == OP_SEND_IMM) && NoRecv(nic.recvs, wr.dcna) && nic.hasPeer
    requires TableOk(nic.mrs) && PageAligned(nic.ram.ranges)
    ensures var nic', ok := Exec(nic, ctx, wr), Readable(nic, wr.locTok, wr.locVa, wr.len);
      && nic'.log == nic.log + [Raised(wr.sendJfc, Cqe(wr.len, wr.op, wr.uctx, 0, 0, 0, true))]
      && nic'.tx == (if ok && wr.len <= MAX_PAYLOAD
                     then nic.tx + [Pkt(wr.op, wr.dcna, 0, 0, wr.imm, wr.order, Bytes(nic, wr.locTok, wr.locVa, wr.len))]
                     else nic.tx)
      && nic'.overrun == (nic.overrun || (ok && wr.len >= WORD32 - HEADER))
      && nic'.ram == nic.ram && nic'.mrs == nic.mrs && nic'.recvs == nic.recvs && nic'.pending == nic.pending
  {
    hide MrRead, Readable, Push, TableOk, FirstRecv, Outcome, Bytes;
    OldestIsFirst(nic.recvs, wr.dcna, 0);
    OutcomeExactly(wr.len);
    ReadableRead(nic, wr.locTok, wr.locVa, wr.len);
    ReadableKnown(nic, wr.locTok, wr.locVa, wr.len);
  }

  lemma ReadableKnown(nic: Nic, tok: U32, va: U64, len: nat)
    ensures Readable(nic, tok, va, len) ==> tok in nic.mrs
  {
  }
}
