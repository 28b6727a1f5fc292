/**
 The NIC as an object: doorbell slots, queues and tables are fields that the MMIO handler updates
 in place. Each method is proved to do what the functions of DataPlane and Doorbell say.
 */
module NicDevice {
  import opened Words
  import opened GuestMemory
  import opened MrAccess
  import opened PipePacket
  import opened MrCopy
  import opened DmaEngine
  import opened PeerPacket
  import opened JfcQueue
  import opened Completion
  import opened DataPlane
  import opened Flits
  import opened WrCodec
  import Doorbell
  import Conservation

  lemma PipeRouteIgnoresHbm(ram: Ram, hw: HbmWrite, mrs: MrTable, data: seq<Byte>, dt: U32, dv: U64)
    requires HbmOk(hw)
    ensures PipeRoute(ram, hw, mrs, data, dt, dv) == PipeRoute(ram, Hbm(), mrs, data, dt, dv)
  {
    hide RouteFrom;
    RouteIgnoresHbm(ram, hw, Hbm(), mrs, data, dt, dv);
  }

  lemma PipeCopyIgnoresHbm(ram: Ram, hw: HbmWrite, mrs: MrTable, dt: U32, dv: U64, st: U32, sv: U64, len: nat)
    requires HbmOk(hw)
    ensures PipeCopy(ram, hw, mrs, dt, dv, st, sv, len) == PipeCopy(ram, Hbm(), mrs, dt, dv, st, sv, len)
  {
    hide MrRead, PipeRoute;
    if len > 0 && MrRead(ram, mrs, st, sv, len).Some? {
      PipeRouteIgnoresHbm(ram, hw, mrs, MrRead(ram, mrs, st, sv, len).value, dt, dv);
    }
  }

  /** A deposit depends on memory and tables alone. */
  lemma DepositSame(n: Nic, n2: Nic, data: seq<Byte>, dt: U32, dv: U64)
    requires n.ram == n2.ram && n.mrs == n2.mrs && n.pipe == n2.pipe
    ensures Deposit(n, data, dt, dv) == Deposit(n2, data, dt, dv)
  {
    hide PipeRoute, MrWrite;
  }

  lemma ExecConserves(nic: Nic, executed: seq<Wr>, ctx: nat, wr: Wr)
    ensures forall t :: Conservation.Sends(Exec(nic, ctx, wr), t) + Conservation.Tally(executed, Conservation.WrTag, t)
                     == Conservation.Sends(nic, t) + Conservation.Tally(executed + [wr], Conservation.WrTag, t)
  {
    hide Exec, Conservation.Sends, Conservation.Tally;
    forall t
      ensures Conservation.Sends(Exec(nic, ctx, wr), t) + Conservation.Tally(executed, Conservation.WrTag, t)
           == Conservation.Sends(nic, t) + Conservation.Tally(executed + [wr], Conservation.WrTag, t)
    {
      Conservation.ExecBalanced(nic, ctx, wr, t, Conservation.RecvTag(0, 0));
      Conservation.TallyPush(executed, wr, Conservation.WrTag, t);
    }
  }

  lemma RecvConserves(nic: Nic, r: Recv)
    ensures forall t :: Conservation.Sends(PostRecv(nic, r), t) == Conservation.Sends(nic, t)
  {
    hide PostRecv, Conservation.Sends;
    forall t ensures Conservation.Sends(PostRecv(nic, r), t) == Conservation.Sends(nic, t) {
      Conservation.PostRecvBooks(nic, r, t, Conservation.RecvTag(0, 0));
    }
  }

  lemma PeerConserves(nic: Nic, p: Pkt)
    requires |p.payload| < WORD32
    ensures forall t :: Conservation.Sends(PeerApply(nic, p), t) == Conservation.Sends(nic, t)
  {
    hide PeerApply, Conservation.Sends;
    forall t ensures Conservation.Sends(PeerApply(nic, p), t) == Conservation.Sends(nic, t) {
      Conservation.PeerBalanced(nic, p, t, Conservation.RecvTag(0, 0));
    }
  }

  class Device {
    const engine: Engine
    const pipe: bool
    const hasPeer: bool
    var queues: Queues<Cqe>
    var recvs: seq<Recv>
    var pending: seq<Pending>
    var tx: seq<Pkt>
    ghost var overrun: bool
    ghost var log: seq<Raised>
    var doors: seq<Doorbell.Door>
    var nextCtx: nat
    ghost var claimed: set<nat>
    ghost var executed: seq<Wr>

    ghost function State(): Nic
      reads this, engine
    {
      Nic(engine.ram, View(engine.entries), pipe, hasPeer, queues, log, recvs, pending, tx, overrun)
    }

    ghost predicate Valid()
      reads this, engine
    {
      && HbmOk(engine.hw) && nextCtx <= Doorbell.MAX_CTX && (forall c: nat :: c in claimed <==> c < nextCtx)
      && |doors| == Doorbell.MAX_CTX && forall c :: 0 <= c < |doors| ==> Doorbell.DoorOk(doors[c])
    }

    /** Send-side completions raised plus SENDs pending are the WRs executed, whatever happens between them. */
    ghost predicate Conserved()
      reads this, engine
    {
      forall t :: Conservation.Sends(State(), t) == Conservation.Tally(executed, Conservation.WrTag, t)
    }

    constructor (ram: Ram, hbm: seq<Byte>, pipe: bool, hasPeer: bool)
      requires |hbm| >= PACKET
      ensures Valid() && Conserved() && fresh(engine) && nextCtx == 0
      ensures State() == Nic(ram, map[], pipe, hasPeer, map[], [], [], [], [], false)
      ensures forall c :: 0 <= c < |doors| ==> doors[c].slot == Zeros(Flits.FLIT) && !doors[c].have
    {
      engine := new Engine(ram, hbm);
      this.pipe, this.hasPeer := pipe, hasPeer;
      queues, recvs, pending, tx, overrun, log, nextCtx := map[], [], [], [], false, [], 0;
      claimed, executed := {}, [];
      doors := seq(Doorbell.MAX_CTX, _ => Doorbell.Door(Zeros(Flits.FLIT), Zeros(Flits.FLIT), false));
    }

    /** CLAIM: an id no one has, until all 64 are gone; then the id past the last, again and again. */
    method Claim() returns (id: nat)
      requires Valid()
      modifies this`nextCtx, this`claimed
      ensures Valid() && (id < Doorbell.MAX_CTX <==> old(nextCtx) < Doorbell.MAX_CTX)
      ensures id < Doorbell.MAX_CTX ==> id !in old(claimed) && claimed == old(claimed) + {id}
      ensures id >= Doorbell.MAX_CTX ==> id == Doorbell.MAX_CTX && claimed == old(claimed)
    {
      id := nextCtx;
      if nextCtx < Doorbell.MAX_CTX {
        nextCtx := nextCtx + 1;
        claimed := claimed + {id};
      }
    }

    method PushCqe(jfc: U32, cqe: Cqe)
      modifies this`queues, this`log
      ensures State() == Complete(old(State()), jfc, cqe)
    {
      var q := Queue(queues, jfc) + [cqe];
      if |q| > QUEUE_MAX {
        q := q[1..];
      }
      queues := queues[jfc := q];
      log := log + [Raised(jfc, cqe)];
    }

    /** Take the oldest receive posted on a jetty. */
    method FindRecv(jetty: U32) returns (r: Option<Recv>)
      modifies this`recvs
      ensures var i := FirstRecv(old(recvs), jetty);
        if i < |old(recvs)| then recvs == Without(old(recvs), i) && r == Some(old(recvs)[i])
        else recvs == old(recvs) && r == None
    {
      var i := 0;
      while i < |recvs|
        invariant i <= |recvs| && recvs == old(recvs) && forall k :: 0 <= k < i ==> recvs[k].jetty != jetty
      {
        if recvs[i].jetty == jetty {
          r := Some(recvs[i]);
          recvs := recvs[..i] + recvs[i + 1..];
          return;
        }
        i := i + 1;
      }
      r := None;
    }

    method MoveBytes(dt: U32, dv: U64, st: U32, sv: U64, len: nat) returns (ok: bool)
      requires Valid()
      modifies engine`ram, engine`hw
      ensures Valid() && Written(engine.ram, ok) == Move(old(State()), dt, dv, st, sv, len)
    {
      hide PipeCopy, CopyMr, View;
      PipeCopyIgnoresHbm(engine.ram, engine.hw, View(engine.entries), dt, dv, st, sv, len);
      if pipe {
        ok := engine.OuPipeCopy(dt, dv, st, sv, len);
        if ok {
          return;
        }
      }
      ok := engine.OuCopyMr(dt, dv, st, sv, len);
    }

    method DepositBytes(data: seq<Byte>, dt: U32, dv: U64) returns (ok: bool)
      requires Valid()
      modifies engine`ram, engine`hw
      ensures Valid() && Written(engine.ram, ok) == Deposit(old(State()), data, dt, dv)
    {
      hide PipeRoute, MrWrite, View;
      PipeRouteIgnoresHbm(engine.ram, engine.hw, View(engine.entries), data, dt, dv);
      if pipe {
        ok := engine.OuPipeRoute(data, dt, dv);
        if ok {
          return;
        }
      }
      ok := engine.OuDmaMrWrite(dt, dv, data);
    }

    /** dp_deliver_send: move the payload, then both completions. */
    method DeliverSend(s: Pending, r: Recv)
      requires Valid()
      modifies this`queues, this`log, engine`ram, engine`hw
      ensures Valid() && State() == Deliver(old(State()), s, r)
    {
      hide Move, View;
      var ok := false;
      if s.len != 0 {
        ok := MoveBytes(r.tok, r.va, s.tok, s.va, s.len);
      }
      PushCqe(s.jfc, SendCqe(s.len, s.op, s.uctx, ok));
      var imm := s.op == OP_SEND_IMM;
      PushCqe(r.jfc, Cqe(s.len, s.op, r.uctx, 1, if imm then 1 else 0, if imm then s.imm else 0, ok));
    }

    /** Ship a packet to the peer, by the size test on its 32-bit length. */
    method PeerSendPacket(p: Pkt)
      modifies this`tx, this`overrun
      ensures State() == PeerSend(old(State()), p)
    {
      var plen := (HEADER + |p.payload|) % WORD32;
      if plen > SLOT - 4 {
        return;
      }
      if plen == HEADER + |p.payload| {
        tx := tx + [p];
      } else {
        overrun := true;
      }
    }

    /** The branch of a WRITE to a region of this NIC. */
    method LocalWrite(wr: Wr)
      requires Valid() && wr.len > 0 && wr.remTok in engine.entries
      modifies this`queues, this`log, this`recvs, engine`ram, engine`hw
      ensures Valid() && State() == ExecWrite(old(State()), wr)
    {
      hide Move, MrRead, FirstRecv, View, PeerSend, Push;
      assert wr.remTok in View(engine.entries) by { ViewTokens(engine.entries); }
      var ok := MoveBytes(wr.remTok, wr.remVa, wr.locTok, wr.locVa, wr.len);
      var r := None;
      if wr.op == OP_WRITE_IMM {
        r := FindRecv(wr.dcna);
      }
      PushCqe(wr.sendJfc, SendCqe(wr.len, wr.op, wr.uctx, ok));
      if r.Some? {
        PushCqe(r.value.jfc, Cqe(wr.len, OP_WRITE_IMM, r.value.uctx, 1, 1, wr.imm, ok));
      }
    }

    /** The cross-node branch of a WRITE: read the source and ship it. */
    method ShipWrite(wr: Wr) returns (ok: bool)
      requires Valid()
      modifies this`tx, this`overrun
      ensures Valid()
      ensures var nic := old(State());
        var data := MrRead(nic.ram, nic.mrs, wr.locTok, wr.locVa, wr.len);
        && ok == data.Some?
        && State() == if data.None? then nic
                      else PeerSend(nic, Pkt(wr.op, wr.dcna, wr.remTok, wr.remVa, wr.imm, wr.order, data.value))
    {
      hide MrRead, PeerSend, View;
      var tmp := engine.OuDmaMrRead(wr.locTok, wr.locVa, wr.len);
      ok := tmp.Some?;
      if ok {
        PeerSendPacket(Pkt(wr.op, wr.dcna, wr.remTok, wr.remVa, wr.imm, wr.order, tmp.value));
      }
    }

    method ExecuteWrite(wr: Wr)
      requires Valid()
      modifies this`queues, this`log, this`recvs, this`tx, this`overrun, engine`ram, engine`hw
      ensures Valid() && State() == ExecWrite(old(State()), wr)
    {
      hide Move, MrRead, FirstRecv, View, PeerSend, Push;
      assert forall t :: t in View(engine.entries) <==> t in engine.entries by { ViewTokens(engine.entries); }
      if wr.len > 0 && wr.remTok in engine.entries {
        LocalWrite(wr);
      } else if wr.len > 0 && hasPeer {
        var ok := ShipWrite(wr);
        PushCqe(wr.sendJfc, SendCqe(wr.len, wr.op, wr.uctx, ok));
      } else {
        PushCqe(wr.sendJfc, SendCqe(wr.len, wr.op, wr.uctx, false));
      }
    }

    method ExecuteRead(wr: Wr)
      requires Valid()
      modifies this`queues, this`log, engine`ram, engine`hw
      ensures Valid() && State() == ExecRead(old(State()), wr)
    {
      hide Move, View;
      var ok := false;
      if wr.len > 0 {
        ok := MoveBytes(wr.locTok, wr.locVa, wr.remTok, wr.remVa, wr.len);
      }
      PushCqe(wr.sendJfc, SendCqe(wr.len, wr.op, wr.uctx, ok));
    }

    /** Fetch the word, deliver it to the initiator, then replace it. */
    method UpdateAtomic(wr: Wr) returns (ok: bool)
      requires Valid()
      modifies engine`ram, engine`hw
      ensures Valid() && Written(engine.ram, ok) == AtomicUpdate(old(State()), wr)
    {
      hide PipeCopy, MrRead, MrWrite, NewValue, View;
      var raw := engine.OuDmaMrRead(wr.remTok, wr.remVa, 8);
      if raw.None? {
        return false;
      }
      Pow256Values();
      var nv := NewValue(wr, UnLe(raw.value));
      PipeCopyIgnoresHbm(engine.ram, engine.hw, View(engine.entries), wr.locTok, wr.locVa, wr.remTok, wr.remVa, 8);
      var delivered := false;
      if pipe {
        delivered := engine.OuPipeCopy(wr.locTok, wr.locVa, wr.remTok, wr.remVa, 8);
      }
      if !delivered {
        delivered := engine.OuDmaMrWrite(wr.locTok, wr.locVa, raw.value);
      }
      ok := false;
      if delivered {
        ok := engine.OuDmaMrWrite(wr.remTok, wr.remVa, Le(8, nv));
      }
    }

    method ExecuteAtomic(wr: Wr)
      requires Valid()
      modifies this`queues, this`log, engine`ram, engine`hw
      ensures Valid() && State() == ExecAtomic(old(State()), wr)
    {
      hide AtomicUpdate, View;
      var ok := UpdateAtomic(wr);
      PushCqe(wr.sendJfc, SendCqe(wr.len, wr.op, wr.uctx, ok));
    }

    method ExecuteSend(ctx: nat, wr: Wr)
      requires Valid()
      modifies this`queues, this`log, this`recvs, this`pending, this`tx, this`overrun, engine`ram, engine`hw
      ensures Valid() && State() == ExecSend(old(State()), ctx, wr)
    {
      hide Deliver, MrRead, FirstRecv, View;
      var r := FindRecv(wr.dcna);
      if r.Some? {
        DeliverSend(AsPending(ctx, wr), r.value);
      } else if hasPeer {
        var tmp := engine.OuDmaMrRead(wr.locTok, wr.locVa, wr.len);
        if tmp.Some? {
          PeerSendPacket(Pkt(wr.op, wr.dcna, 0, 0, wr.imm, wr.order, tmp.value));
        }
        PushCqe(wr.sendJfc, SendCqe(wr.len, wr.op, wr.uctx, true));
      } else {
        pending := pending + [AsPending(ctx, wr)];
      }
    }

    method Execute(ctx: nat, wr: Wr)
      requires Valid()
      modifies this`queues, this`log, this`recvs, this`pending, this`tx, this`overrun, this`executed, engine`ram, engine`hw
      ensures Valid() && State() == Exec(old(State()), ctx, wr) && executed == old(executed) + [wr]
      ensures old(Conserved()) ==> Conserved()
    {
      hide ExecWrite, ExecRead, ExecAtomic, ExecSend, View, Conservation.Sends, Conservation.Tally;
      executed := executed + [wr];
      ExecConserves(old(State()), old(executed), ctx, wr);
      if wr.op == OP_WRITE || wr.op == OP_WRITE_IMM {
        ExecuteWrite(wr);
      } else if wr.op == OP_READ {
        ExecuteRead(wr);
      } else if OP_CAS <= wr.op <= OP_FXOR {
        ExecuteAtomic(wr);
      } else if wr.op == OP_SEND || wr.op == OP_SEND_IMM {
        ExecuteSend(ctx, wr);
      } else {
        PushCqe(wr.sendJfc, SendCqe(wr.len, wr.op, wr.uctx, false));
      }
    }

    /** The RECV doorbell fired: queue the receive and look for a SEND that waits for it. */
    method RecvFired(r: Recv)
      requires Valid()
      modifies this`queues, this`log, this`recvs, this`pending, engine`ram, engine`hw
      ensures Valid() && State() == PostRecv(old(State()), r)
      ensures old(Conserved()) ==> Conserved()
    {
      hide Conservation.Sends, Deliver, FirstPending, View;
      RecvConserves(old(State()), r);
      recvs := recvs + [r];
      if |recvs| > RECV_MAX {
        recvs := recvs[1..];
      }
      var i := FindPending(r.jetty);
      if i < |pending| {
        var s := pending[i];
        pending := pending[..i] + pending[i + 1..];
        DeliverSend(s, r);
      }
    }

    method FindPending(jetty: U32) returns (i: nat)
      ensures i == FirstPending(pending, jetty)
    {
      i := 0;
      while i < |pending| && pending[i].jetty != jetty
        invariant i <= |pending| && forall k :: 0 <= k < i ==> pending[k].jetty != jetty
      {
        i := i + 1;
      }
    }

    /** A store into a context's doorbell slot. */
    method StoreDoorbell(ctx: nat, local: nat, data: seq<Byte>)
      requires Valid() && ctx < Doorbell.MAX_CTX && local + |data| <= Flits.FLIT
      modifies this`doors, this`queues, this`log, this`recvs, this`pending, this`tx, this`overrun, this`executed
      modifies engine`ram, engine`hw
      ensures Valid() && (old(Conserved()) ==> Conserved())
      ensures var r := Doorbell.Store(old(doors[ctx]), local, data);
        && doors == old(doors)[ctx := r.0]
        && State() == (if r.1.Some? then Exec(old(State()), ctx, r.1.value) else old(State()))
        && executed == old(executed) + (if r.1.Some? then [r.1.value] else [])
    {
      hide Exec, View, WrCodec.Decode, Conservation.Sends, Conservation.Tally;
      var d := doors[ctx];
      var slot := Put(d.slot, local, data);
      if local + |data| != Flits.FLIT {
        doors := doors[ctx := d.(slot := slot)];
        return;
      }
      var meta, have := d.meta, d.have;
      if Sop(slot) {
        meta, have := slot, true;
      }
      if Eop(slot) && have {
        Execute(ctx, WrCodec.Decode(meta, slot));
        have := false;
      }
      doors := doors[ctx := Doorbell.Door(Zeros(Flits.FLIT), meta, have)];
    }

    /** A packet drained from the peer ring: what it does, and that it keeps the books. */
    method ApplyPacket(p: Pkt)
      requires Valid() && |p.payload| < WORD32
      modifies this`queues, this`log, this`recvs, engine`ram, engine`hw
      ensures Valid() && State() == PeerApply(old(State()), p)
      ensures old(Conserved()) ==> Conserved()
    {
      hide Conservation.Sends, Conservation.Tally, PeerApply, View;
      PeerConserves(State(), p);
      HandlePacket(p);
    }

    method HandlePacket(p: Pkt)
      requires Valid() && |p.payload| < WORD32
      modifies this`queues, this`log, this`recvs, engine`ram, engine`hw
      ensures Valid() && State() == PeerApply(old(State()), p)
    {
      hide Conservation.Sends, Conservation.Tally, Deposit, MrWrite, FirstRecv, View, Push;
      var len: U32 := |p.payload|;
      if p.op == OP_WRITE || p.op == OP_WRITE_IMM {
        var ok := false;
        if len != 0 {
          ok := DepositBytes(p.payload, p.rtoken, p.rva);
        }
        if p.op == OP_WRITE_IMM {
          var r := FindRecv(p.dcna);
          if r.Some? {
            PushCqe(r.value.jfc, Cqe(len, p.op, r.value.uctx, 1, 1, p.imm, ok));
          }
        }
      } else if p.op == OP_SEND || p.op == OP_SEND_IMM {
        var r := FindRecv(p.dcna);
        if r.Some? {
          var ok: bool;
          if len == 0 {
            ok := engine.OuDmaMrWrite(r.value.tok, r.value.va, []);
          } else {
            DepositSame(State(), old(State()), p.payload, r.value.tok, r.value.va);
            ok := DepositBytes(p.payload, r.value.tok, r.value.va);
          }
          PushCqe(r.value.jfc, Cqe(len, p.op, r.value.uctx, 1, if p.op == OP_SEND_IMM then 1 else 0, p.imm, ok));
        }
      }
    }
  }

  lemma ViewTokens(entries: map<U32, MrEntry>)
    ensures forall t :: t in View(entries) <==> t in entries
  {
  }
}
