/**
 Work-request execution in the NIC (the doorbell branch of mmio_b, dp_deliver_send,
 find_recv, peer_apply and the RECV doorbell), as functions from state to state. Completion
 queues hold the records before dp_push_cqe lays them out in bytes.
 */
module DataPlane {
  import opened Words
  import opened GuestMemory
  import opened MrAccess
  import opened PipePacket
  import opened MrCopy
  import opened PeerPacket
  import opened JfcQueue
  import opened Completion

  const OP_WRITE: Byte := 0x00
  const OP_WRITE_IMM: Byte := 0x01
  const OP_READ: Byte := 0x10
  const OP_CAS: Byte := 0x20
  const OP_SWAP: Byte := 0x21
  const OP_FADD: Byte := 0x22
  const OP_FSUB: Byte := 0x23
  const OP_FAND: Byte := 0x24
  const OP_FOR: Byte := 0x25
  const OP_FXOR: Byte := 0x26
  const OP_SEND: Byte := 0x40
  const OP_SEND_IMM: Byte := 0x41
  const RECV_MAX: nat := 256

  /** A work request as the NIC decodes it from a meta and an extension flit. */
  datatype Wr = Wr(op: Byte, order: Byte, dcna: U32, sendJfc: U32,
                   remVa: U64, locVa: U64, cmp: U64, remTok: U32, locTok: U32,
                   uctx: U64, val: U64, len: U32, imm: U32)

  datatype Recv = Recv(jetty: U32, tok: U32, va: U64, uctx: U64, owner: nat, jfc: U32)

  /** A SEND that found no receive on its jetty. */
  datatype Pending = Pending(jetty: U32, tok: U32, va: U64, len: U32, op: Byte,
                             uctx: U64, imm: U32, ctx: nat, jfc: U32)

  datatype Raised = Raised(jfc: U32, cqe: Cqe)

  /**
   log is the history of every completion raised; tx is what peer_send put on the ring; overrun
   says that a packet went past the end of its ring slot, after which the ring holds anything.
   */
  datatype Nic = Nic(ram: Ram, mrs: MrTable, pipe: bool, hasPeer: bool,
                     queues: Queues<Cqe>, log: seq<Raised>,
                     recvs: seq<Recv>, pending: seq<Pending>, tx: seq<Pkt>, overrun: bool)

  function Complete(nic: Nic, jfc: U32, cqe: Cqe): Nic {
    nic.(queues := Push(nic.queues, jfc, cqe), log := nic.log + [Raised(jfc, cqe)])
  }

  // ---- moving bytes ----

  /** The landing buffer of the responder; its contents never matter (RouteIgnoresHbm). */
  function Hbm(): (hw: HbmWrite)
    ensures HbmOk(hw)
  {
    HbmWrite(Zeros(PACKET), false, false, 0, 0)
  }

  /** Through the pipeline if it is there and succeeds, else the functional copy. */
  function Move(nic: Nic, dt: U32, dv: U64, st: U32, sv: U64, len: nat): Written {
    var p := PipeCopy(nic.ram, Hbm(), nic.mrs, dt, dv, st, sv, len);
    if nic.pipe && p.ok then p
    else CopyMr(if nic.pipe then p.ram else nic.ram, nic.mrs, dt, dv, st, sv, len)
  }

  function Deposit(nic: Nic, data: seq<Byte>, dt: U32, dv: U64): Written {
    var p := PipeRoute(nic.ram, Hbm(), nic.mrs, data, dt, dv);
    if nic.pipe && p.ok then p
    else MrWrite(if nic.pipe then p.ram else nic.ram, nic.mrs, dt, dv, data)
  }

  // ---- receives ----

  /** Index of the oldest receive on a jetty, or the length of the queue. */
  function FirstRecv(rs: seq<Recv>, jetty: U32): (i: nat)
    ensures i <= |rs| && (i < |rs| ==> rs[i].jetty == jetty)
    ensures forall k :: 0 <= k < i ==> rs[k].jetty != jetty
  {
    First(rs, (r: Recv) => r.jetty == jetty)
  }

  /** Likewise for the SENDs that wait for one. */
  function FirstPending(ps: seq<Pending>, jetty: U32): (i: nat)
    ensures i <= |ps| && (i < |ps| ==> ps[i].jetty == jetty)
    ensures forall k :: 0 <= k < i ==> ps[k].jetty != jetty
  {
    First(ps, (p: Pending) => p.jetty == jetty)
  }

  function Without<T>(s: seq<T>, i: nat): seq<T>
    requires i < |s|
  {
    s[..i] + s[i + 1..]
  }

  /** A receive-side completion for the i-th queued receive, which leaves the queue. */
  function Consume(nic: Nic, i: nat, len: U32, op: Byte, immValid: Byte, imm: U32, ok: bool): Nic
    requires i < |nic.recvs|
  {
    var r := nic.recvs[i];
    Complete(nic.(recvs := Without(nic.recvs, i)), r.jfc, Cqe(len, op, r.uctx, 1, immValid, imm, ok))
  }

  function SendCqe(len: U32, op: Byte, uctx: U64, ok: bool): Cqe { Cqe(len, op, uctx, 0, 0, 0, ok) }

  /** dp_deliver_send. */
  function Deliver(nic: Nic, s: Pending, r: Recv): Nic {
    var w := if s.len == 0 then Written(nic.ram, false) else Move(nic, r.tok, r.va, s.tok, s.va, s.len);
    var imm := s.op == OP_SEND_IMM;
    var n1 := Complete(nic.(ram := w.ram), s.jfc, SendCqe(s.len, s.op, s.uctx, w.ok));
    Complete(n1, r.jfc, Cqe(s.len, s.op, r.uctx, 1, if imm then 1 else 0, if imm then s.imm else 0, w.ok))
  }

  // ---- the opcodes ----

  /** What peer_send makes of a payload of this length. */
  datatype Sending = Sent | Dropped | Overrun

  /** The packet length is a 32-bit sum, tested against the slot size; what is stored is not cut. */
  function Outcome(len: nat): Sending {
    var plen := (HEADER + len) % WORD32;
    if plen > SLOT - 4 then Dropped else if plen == HEADER + len then Sent else Overrun
  }

  function PeerSend(nic: Nic, p: Pkt): Nic {
    match Outcome(|p.payload|)
    case Sent => nic.(tx := nic.tx + [p])
    case Dropped => nic
    case Overrun => nic.(overrun := true)
  }

  /** Sent up to 8148 bytes, dropped beyond, and past its slot once the 32-bit sum has wrapped. */
  lemma OutcomeExactly(len: U32)
    ensures Outcome(len) == Sent <==> len <= 8148
    ensures Outcome(len) == Dropped <==> 8148 < len < 0xFFFF_FFD8
    ensures Outcome(len) == Overrun <==> 0xFFFF_FFD8 <= len
  {
    if len >= WORD32 - HEADER {
      assert (HEADER + len) % WORD32 == HEADER + len - WORD32;
    }
  }

  function ExecWrite(nic: Nic, wr: Wr): Nic {
    if wr.len > 0 && wr.remTok in nic.mrs then
      var w := Move(nic, wr.remTok, wr.remVa, wr.locTok, wr.locVa, wr.len);
      var n1 := Complete(nic.(ram := w.ram), wr.sendJfc, SendCqe(wr.len, wr.op, wr.uctx, w.ok));
      var i := FirstRecv(nic.recvs, wr.dcna);
      if wr.op == OP_WRITE_IMM && i < |nic.recvs| then Consume(n1, i, wr.len, OP_WRITE_IMM, 1, wr.imm, w.ok)
      else n1
    else if wr.len > 0 && nic.hasPeer then
      match MrRead(nic.ram, nic.mrs, wr.locTok, wr.locVa, wr.len)
      case None => Complete(nic, wr.sendJfc, SendCqe(wr.len, wr.op, wr.uctx, false))
      case Some(data) =>
        var n1 := PeerSend(nic, Pkt(wr.op, wr.dcna, wr.remTok, wr.remVa, wr.imm, wr.order, data));
        Complete(n1, wr.sendJfc, SendCqe(wr.len, wr.op, wr.uctx, true))
    else Complete(nic, wr.sendJfc, SendCqe(wr.len, wr.op, wr.uctx, false))
  }

  function ExecRead(nic: Nic, wr: Wr): Nic {
    var w := if wr.len == 0 then Written(nic.ram, false)
             else Move(nic, wr.locTok, wr.locVa, wr.remTok, wr.remVa, wr.len);
    Complete(nic.(ram := w.ram), wr.sendJfc, SendCqe(wr.len, wr.op, wr.uctx, w.ok))
  }

  /** The word an atomic leaves behind. */
  function NewValue(wr: Wr, old64: U64): U64 {
    if wr.op == OP_CAS then (if old64 == wr.cmp then wr.val else old64)
    else if wr.op == OP_SWAP then wr.val
    else if wr.op == OP_FADD then (old64 + wr.val) % WORD64
    else if wr.op == OP_FSUB then (old64 - wr.val) % WORD64
    else if wr.op == OP_FAND then Bitwise64((a, b) => a && b, old64, wr.val)
    else if wr.op == OP_FOR then Bitwise64((a, b) => a || b, old64, wr.val)
    else if wr.op == OP_FXOR then Bitwise64((a, b) => a != b, old64, wr.val)
    else old64
  }

  /** The fetched value goes to the initiator before the word is replaced. */
  function AtomicUpdate(nic: Nic, wr: Wr): Written {
    match MrRead(nic.ram, nic.mrs, wr.remTok, wr.remVa, 8)
    case None => Written(nic.ram, false)
    case Some(raw) =>
      Pow256Values();
      var p := PipeCopy(nic.ram, Hbm(), nic.mrs, wr.locTok, wr.locVa, wr.remTok, wr.remVa, 8);
      var d := if nic.pipe && p.ok then p
               else MrWrite(if nic.pipe then p.ram else nic.ram, nic.mrs, wr.locTok, wr.locVa, raw);
      if !d.ok then d
      else MrWrite(d.ram, nic.mrs, wr.remTok, wr.remVa, Le(8, NewValue(wr, UnLe(raw))))
  }

  function ExecAtomic(nic: Nic, wr: Wr): Nic {
    var w := AtomicUpdate(nic, wr);
    Complete(nic.(ram := w.ram), wr.sendJfc, SendCqe(wr.len, wr.op, wr.uctx, w.ok))
  }

  function AsPending(ctx: nat, wr: Wr): Pending {
    Pending(wr.dcna, wr.locTok, wr.locVa, wr.len, wr.op, wr.uctx, wr.imm, ctx, wr.sendJfc)
  }

  function ExecSend(nic: Nic, ctx: nat, wr: Wr): Nic {
    var i := FirstRecv(nic.recvs, wr.dcna);
    if i < |nic.recvs| then
      Deliver(nic.(recvs := Without(nic.recvs, i)), AsPending(ctx, wr), nic.recvs[i])
    else if nic.hasPeer then
      var n1 := match MrRead(nic.ram, nic.mrs, wr.locTok, wr.locVa, wr.len)
        case None => nic
        case Some(data) => PeerSend(nic, Pkt(wr.op, wr.dcna, 0, 0, wr.imm, wr.order, data));
      Complete(n1, wr.sendJfc, SendCqe(wr.len, wr.op, wr.uctx, true))
    else nic.(pending := nic.pending + [AsPending(ctx, wr)])
  }

  function Exec(nic: Nic, ctx: nat, wr: Wr): Nic {
    if wr.op == OP_WRITE || wr.op == OP_WRITE_IMM then ExecWrite(nic, wr)
    else if wr.op == OP_READ then ExecRead(nic, wr)
    else if OP_CAS <= wr.op <= OP_FXOR then ExecAtomic(nic, wr)
    else if wr.op == OP_SEND || wr.op == OP_SEND_IMM then ExecSend(nic, ctx, wr)
    else Complete(nic, wr.sendJfc, SendCqe(wr.len, wr.op, wr.uctx, false))
  }

  /** The RECV doorbell: queue the receive, then serve the oldest pending SEND to its jetty with it. */
  function PostRecv(nic: Nic, r: Recv): Nic {
    var rs := nic.recvs + [r];
    var n1 := nic.(recvs := if |rs| > RECV_MAX then rs[1..] else rs);
    var i := FirstPending(nic.pending, r.jetty);
    if i < |nic.pending| then Deliver(n1.(pending := Without(nic.pending, i)), nic.pending[i], r)
    else n1
  }

  /** peer_apply on a packet that arrived from the other node. */
  function PeerApply(nic: Nic, p: Pkt): Nic
    requires |p.payload| < WORD32
  {
    var len: U32 := |p.payload|;
    var i := FirstRecv(nic.recvs, p.dcna);
    if p.op == OP_WRITE || p.op == OP_WRITE_IMM then
      var w := if len == 0 then Written(nic.ram, false) else Deposit(nic, p.payload, p.rtoken, p.rva);
      var n1 := nic.(ram := w.ram);
      if p.op == OP_WRITE_IMM && i < |nic.recvs| then Consume(n1, i, len, p.op, 1, p.imm, w.ok) else n1
    else if (p.op == OP_SEND || p.op == OP_SEND_IMM) && i < |nic.recvs| then
      var r := nic.recvs[i];
      var w := if len == 0 then MrWrite(nic.ram, nic.mrs, r.tok, r.va, [])
               else Deposit(nic, p.payload, r.tok, r.va);
      Consume(nic.(ram := w.ram), i, len, p.op, if p.op == OP_SEND_IMM then 1 else 0, p.imm, w.ok)
    else nic
  }
}
