/**
 A WRITE to the other node, end to end: execution on the sender, the packet in the ring, and
 peer_apply on the target.
 */
module PeerWrite {
  import opened Words
  import opened GuestMemory
  import opened MrAccess
  import opened MrCopy
  import opened PeerPacket
  import opened DataPlane

  /** The WR addresses a region this NIC does not have, and there is a peer to send it to. */
  predicate CrossNode(nic: Nic, wr: Wr) {
    (wr.op == OP_WRITE || wr.op == OP_WRITE_IMM) && wr.len > 0 && wr.remTok !in nic.mrs && nic.hasPeer
  }

  /** The source range as flat memory. */
  ghost function Source(nic: Nic, wr: Wr): (data: seq<Byte>)
    requires wr.locTok in nic.mrs
    ensures |data| == wr.len
  {
    Gather(nic.ram.bytes, MrPas(nic.ram, nic.mrs, wr.locTok, wr.locVa, wr.len))
  }

  ghost function Packet(nic: Nic, wr: Wr): Pkt
    requires wr.locTok in nic.mrs
  {
    Pkt(wr.op, wr.dcna, wr.remTok, wr.remVa, wr.imm, wr.order, Source(nic, wr))
  }

  /**
   The sender completes a cross-node WRITE with success in any case. The bytes as they are in
   memory at that moment are on the ring exactly when there are at most 8148; from 2^32 - 40 on
   the packet runs past its slot; in between it is dropped.
   */
  lemma SendsSourceIfItFits(nic: Nic, ctx: nat, wr: Wr)
    requires CrossNode(nic, wr) && TableOk(nic.mrs) && PageAligned(nic.ram.ranges)
    requires Mapped(nic.ram, nic.mrs, wr.locTok, wr.locVa, wr.len)
    ensures var nic' := Exec(nic, ctx, wr);
      && nic'.ram == nic.ram
      && nic'.log == nic.log + [Raised(wr.sendJfc, SendCqe(wr.len, wr.op, wr.uctx, true))]
      && nic'.tx == (if wr.len <= MAX_PAYLOAD then nic.tx + [Packet(nic, wr)] else nic.tx)
      && nic'.overrun == (nic.overrun || wr.len >= WORD32 - HEADER)
  {
    assert wr.locTok in nic.mrs;
    hide MrRead, Move, Mapped, MrPas, Gather, Outcome;
    OutcomeExactly(wr.len);
    MappedRead(nic.ram, nic.mrs, wr.locTok, wr.locVa, wr.len);
  }

  /** The first length whose packet length wraps: 2^32 - 40 bytes pass the size test as a packet of 0. */
  lemma WrappedLengthOverruns(nic: Nic, ctx: nat, wr: Wr)
    requires CrossNode(nic, wr) && TableOk(nic.mrs) && PageAligned(nic.ram.ranges)
    requires Mapped(nic.ram, nic.mrs, wr.locTok, wr.locVa, wr.len) && wr.len == WORD32 - HEADER
    ensures var nic' := Exec(nic, ctx, wr);
      && nic'.overrun && nic'.tx == nic.tx
      && nic'.log == nic.log + [Raised(wr.sendJfc, SendCqe(wr.len, wr.op, wr.uctx, true))]
  {
    hide Exec, Mapped;
    SendsSourceIfItFits(nic, ctx, wr);
  }

  /** Through the pipeline or not, bytes that arrive for a writable range are one flat store. */
  lemma DepositIsStore(nic: Nic, data: seq<Byte>, dt: U32, dv: U64)
    requires TableOk(nic.mrs) && data != [] && Target(nic.ram, nic.mrs, dt, dv, |data|)
    ensures Deposit(nic, data, dt, dv)
         == Written(nic.ram.(bytes := Scatter(nic.ram.bytes, MrPas(nic.ram, nic.mrs, dt, dv, |data|), data)), true)
  {
    hide Target, MrPas, MrWrite, RouteFrom, Scatter, TableOk;
    TargetKnown(nic.ram, nic.mrs, dt, dv, |data|);
    RouteIsStore(nic.ram, Hbm(), nic.mrs, data, dt, dv);
    TargetHead(nic.ram, nic.mrs, dt, dv, data, |data|);
    var pas := MrPas(nic.ram, nic.mrs, dt, dv, |data|);
    assert data[..|data|] == data && pas[..|data|] == pas;
  }

  /** The range named by a packet can be written, one physical byte for each of its addresses. */
  ghost predicate Receives(nic: Nic, p: Pkt) {
    && TableOk(nic.mrs) && Target(nic.ram, nic.mrs, p.rtoken, p.rva, |p.payload|)
    && Distinct(MrPas(nic.ram, nic.mrs, p.rtoken, p.rva, |p.payload|))
  }

  /** Applying a WRITE packet: its range reads back the payload, and no other byte changes. */
  lemma ApplyStores(nic: Nic, p: Pkt)
    requires (p.op == OP_WRITE || p.op == OP_WRITE_IMM) && 0 < |p.payload| < WORD32 && Receives(nic, p)
    ensures var nic' := PeerApply(nic, p);
      && nic'.mrs == nic.mrs
      && MrRead(nic'.ram, nic.mrs, p.rtoken, p.rva, |p.payload|) == Some(p.payload)
      && forall a: nat :: a !in MrPas(nic.ram, nic.mrs, p.rtoken, p.rva, |p.payload|) ==>
          Peek(nic'.ram.bytes, a) == Peek(nic.ram.bytes, a)
  {
    ApplyIsDeposit(nic, p);
    StoreReadsBack(nic, p.payload, p.rtoken, p.rva);
  }

  lemma ApplyIsDeposit(nic: Nic, p: Pkt)
    requires (p.op == OP_WRITE || p.op == OP_WRITE_IMM) && 0 < |p.payload| < WORD32
    ensures PeerApply(nic, p).mrs == nic.mrs && PeerApply(nic, p).ram == Deposit(nic, p.payload, p.rtoken, p.rva).ram
  {
    hide Deposit, FirstRecv;
  }

  lemma StoreReadsBack(nic: Nic, data: seq<Byte>, dt: U32, dv: U64)
    requires TableOk(nic.mrs) && data != [] && Target(nic.ram, nic.mrs, dt, dv, |data|)
    requires Distinct(MrPas(nic.ram, nic.mrs, dt, dv, |data|))
    ensures var ram' := Deposit(nic, data, dt, dv).ram;
      && MrRead(ram', nic.mrs, dt, dv, |data|) == Some(data)
      && forall a: nat :: a !in MrPas(nic.ram, nic.mrs, dt, dv, |data|) ==> Peek(ram'.bytes, a) == Peek(nic.ram.bytes, a)
  {
    var pas := MrPas(nic.ram, nic.mrs, dt, dv, |data|);
    assert MrTablesSafe(nic.ram, nic.mrs, dt, dv, |data|, pas);
    hide MrPas, MrTablesSafe, Mapped, MrWrite, MrRead, Deposit, Scatter, TableOk, Distinct;
    DepositIsStore(nic, data, dt, dv);
    TargetHead(nic.ram, nic.mrs, dt, dv, data, |data|);
    assert data[..|data|] == data && pas[..|data|] == pas;
    MrReadBack(nic.ram, nic.mrs, dt, dv, data);
  }
}
