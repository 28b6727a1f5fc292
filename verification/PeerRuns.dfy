/**
 Two NICs and the ring between them, run together: node A executes work requests and sends,
 node B drains and applies, byte steps of both sides interleave, and both nodes do other things.
 */
module PeerRuns {
  import opened Words
  import opened GuestMemory
  import opened MrAccess
  import opened MrCopy
  import opened PeerPacket
  import opened Completion
  import opened DataPlane
  import opened PeerWrite
  import opened Protection
  import opened Transfers
  import Ring = PeerRing

  datatype Joint = Joint(a: Nic, ring: Ring.Ring, b: Nic)

  /** sending is inside execution: A goes on only when what it queued is on the ring. */
  datatype Step =
    | Execute(ctx: nat, wr: Wr)
    | StartSend
    | OnRing(step: Ring.Step)
    | Drain
    | OtherA(a: Nic)
    | OtherB(b: Nic)

  /** Every packet queued by A fits a slot. */
  predicate Fits(tx: seq<Pkt>) {
    forall i :: 0 <= i < |tx| ==> |tx[i].payload| <= MAX_PAYLOAD
  }

  ghost predicate Enabled(j: Joint, step: Step) {
    && Ring.Shaped(j.ring) && Fits(j.a.tx)
    && match step
       case Execute(_, _) => j.ring.producer == Ring.Quiet && |j.ring.sent| == |j.a.tx|
       case StartSend =>
         && |j.ring.sent| < |j.a.tx| && j.ring.producer == Ring.Quiet
         && Ring.Unread(j.ring) < Ring.SLOTS
       case OnRing(step) => !step.SendStart? && !step.RecvDone? && Ring.Enabled(j.ring, step)
       case Drain => Ring.Enabled(j.ring, Ring.RecvDone)
       case OtherA(a) => a.tx == j.a.tx && a.overrun == j.a.overrun
       case OtherB(_) => true
  }

  /** What the ring does in a step, if anything. */
  ghost function RingStep(j: Joint, step: Step): Option<Ring.Step>
    requires Enabled(j, step)
  {
    match step
    case StartSend => Some(Ring.SendStart(Ring.Image(j.a.tx[|j.ring.sent|])))
    case OnRing(step) => Some(step)
    case Drain => Some(Ring.RecvDone)
    case _ => None
  }

  /** peer_apply on the packet bytes behind the length prefix. */
  function ApplyBytes(b: Nic, pkt: seq<Byte>): Nic {
    if |pkt| >= HEADER && HEADER + PayloadLen(pkt) <= |pkt| && PayloadLen(pkt) < WORD32 then PeerApply(b, Decode(pkt))
    else b
  }

  ghost function Do(j: Joint, step: Step): Joint
    requires Enabled(j, step)
  {
    var r := RingStep(j, step);
    var ring := if r.Some? then Ring.Apply(j.ring, r.value) else j.ring;
    match step
    case Execute(ctx, wr) => j.(a := Exec(j.a, ctx, wr))
    case Drain => Joint(j.a, ring, ApplyBytes(j.b, if |j.ring.consumer.got| > 4 then j.ring.consumer.got[4..] else []))
    case OtherA(a) => j.(a := a)
    case OtherB(b) => j.(b := b)
    case _ => j.(ring := ring)
  }

  /** A run from an empty ring in which no packet of A has run past its slot. */
  ghost predicate IsRun(states: seq<Joint>, steps: seq<Step>) {
    && |states| == |steps| + 1
    && Ring.Init(states[0].ring) && states[0].a.tx == []
    && (forall i :: 0 <= i < |states| ==> !states[i].a.overrun)
    && (forall i :: 0 <= i < |steps| ==> Enabled(states[i], steps[i]) && states[i + 1] == Do(states[i], steps[i]))
  }

  /** What A queued grows by at most one packet, and one that fits. */
  predicate OneMore(tx: seq<Pkt>, tx': seq<Pkt>) {
    Fits(tx') && tx <= tx' && |tx'| <= |tx| + 1
  }

  lemma PeerSendTx(nic: Nic, p: Pkt)
    requires Fits(nic.tx) && |p.payload| < WORD32
    ensures OneMore(nic.tx, PeerSend(nic, p).tx)
  {
    OutcomeExactly(|p.payload|);
  }

  lemma WriteTx(nic: Nic, wr: Wr)
    requires Fits(nic.tx)
    ensures OneMore(nic.tx, ExecWrite(nic, wr).tx)
  {
    hide Move, MrRead, FirstRecv, PeerSend;
    var d := MrRead(nic.ram, nic.mrs, wr.locTok, wr.locVa, wr.len);
    if d.Some? {
      PeerSendTx(nic, Pkt(wr.op, wr.dcna, wr.remTok, wr.remVa, wr.imm, wr.order, d.value));
    }
  }

  lemma SendTx(nic: Nic, ctx: nat, wr: Wr)
    requires Fits(nic.tx)
    ensures OneMore(nic.tx, ExecSend(nic, ctx, wr).tx)
  {
    hide Move, MrRead, FirstRecv, PeerSend;
    var d := MrRead(nic.ram, nic.mrs, wr.locTok, wr.locVa, wr.len);
    if d.Some? {
      PeerSendTx(nic, Pkt(wr.op, wr.dcna, 0, 0, wr.imm, wr.order, d.value));
    }
  }

  lemma ExecTx(nic: Nic, ctx: nat, wr: Wr)
    requires Fits(nic.tx)
    ensures OneMore(nic.tx, Exec(nic, ctx, wr).tx)
  {
    hide ExecWrite, ExecSend, Move, AtomicUpdate;
    WriteTx(nic, wr);
    SendTx(nic, ctx, wr);
  }

  /** The ring carries the packets of A, in the order they were queued. */
  ghost predicate Carries(j: Joint) {
    && Ring.Inv(j.ring) && Fits(j.a.tx) && |j.ring.sent| <= |j.a.tx|
    && (forall k :: 0 <= k < |j.ring.sent| ==> j.ring.sent[k] == Ring.Image(j.a.tx[k]))
    && (j.ring.producer.Storing? ==>
          |j.ring.sent| < |j.a.tx| && j.ring.producer.img == Ring.Image(j.a.tx[|j.ring.sent|]))
  }

  lemma RingStepKeeps(j: Joint, ring: Ring.Ring, step: Ring.Step)
    requires Carries(j) && Ring.Enabled(j.ring, step) && Ring.Guarded(j.ring, step) && ring == Ring.Apply(j.ring, step)
    requires step.SendStart? ==> |j.ring.sent| < |j.a.tx| && step.img == Ring.Image(j.a.tx[|j.ring.sent|])
    ensures Ring.Inv(ring) && |ring.sent| <= |j.a.tx|
    ensures forall k :: 0 <= k < |ring.sent| ==> ring.sent[k] == Ring.Image(j.a.tx[k])
    ensures ring.producer.Storing? ==>
      |ring.sent| < |j.a.tx| && ring.producer.img == Ring.Image(j.a.tx[|ring.sent|])
  {
    Ring.StepKeepsInv(j.ring, step);
    hide Ring.Inv, Ring.Image, Ring.IsImage;
  }

  lemma StepCarries(j: Joint, step: Step)
    requires Carries(j) && Enabled(j, step)
    ensures Carries(Do(j, step))
  {
    hide Ring.Inv, Ring.Apply, Ring.Image, Exec, PeerApply;
    match step
    case Execute(ctx, wr) => ExecTx(j.a, ctx, wr);
    case OtherA(_) =>
    case OtherB(_) =>
    case _ =>
      var r := RingStep(j, step).value;
      RingStepKeeps(j, Ring.Apply(j.ring, r), r);
  }

  lemma {:induction false} RunCarries(states: seq<Joint>, steps: seq<Step>, k: nat)
    requires IsRun(states, steps) && k < |states|
    ensures Carries(states[k])
  {
    if k == 0 {
    } else {
      hide Carries, Do, Enabled;
      RunCarries(states, steps, k - 1);
      StepCarries(states[k - 1], steps[k - 1]);
    }
  }

  /** Every drain applies at B the packet that A queued in that place. */
  lemma DrainApplies(states: seq<Joint>, steps: seq<Step>, t: nat)
    requires IsRun(states, steps) && t < |steps| && steps[t] == Drain
    ensures var j, j' := states[t], states[t + 1];
      var i := |j.ring.applied|;
      && i < |j.a.tx| && |j.a.tx[i].payload| < WORD32 && j'.b == PeerApply(j.b, j.a.tx[i])
      && |j'.ring.applied| == i + 1 && j'.a == j.a
  {
    RunCarries(states, steps, t);
    var j := states[t];
    var i, got := |j.ring.applied|, j.ring.consumer.got;
    assert Enabled(j, Drain) && states[t + 1] == Do(j, Drain);
    assert i < |j.ring.sent| && got <= j.ring.sent[i];
    Ring.ImagePrefix(j.ring.sent[i], got);
    assert got == Ring.Image(j.a.tx[i]);
    Ring.RecvDoneKeepsInv(j.ring);
    hide Ring.Inv, PeerApply, Encode, Decode, PayloadLen, Ring.IsImage, IsRun;
    RoundTrip(j.a.tx[i]);
  }

  /** What A has queued stays queued. */
  lemma {:induction false} TxGrows(states: seq<Joint>, steps: seq<Step>, i: nat, k: nat)
    requires IsRun(states, steps) && i <= k < |states|
    ensures states[i].a.tx <= states[k].a.tx
  {
    hide Enabled, Do;
    if i == k {
    } else {
      assert Enabled(states[k - 1], steps[k - 1]) && states[k] == Do(states[k - 1], steps[k - 1]);
      StepTxGrows(states[k - 1], steps[k - 1]);
      TxGrows(states, steps, i, k - 1);
      hide IsRun;
    }
  }

  lemma StepTxGrows(j: Joint, step: Step)
    requires Enabled(j, step)
    ensures j.a.tx <= Do(j, step).a.tx
  {
    hide Exec, PeerApply, Ring.Apply;
    if step.Execute? {
      ExecTx(j.a, step.ctx, step.wr);
    }
  }

  /**
   Cross-node WRITE over whole runs: A executes the WR at step t0, B drains the packet it queued at
   step t. Then the target range, if it can be written, holds the source bytes as they were at t0,
   and all other memory of B is as it was before the drain.
   */
  lemma WriteArrives(states: seq<Joint>, steps: seq<Step>, t0: nat, t: nat, ctx: nat, wr: Wr)
    requires IsRun(states, steps) && t0 < t < |steps| && steps[t0] == Execute(ctx, wr) && steps[t] == Drain
    requires var a := states[t0].a;
      && CrossNode(a, wr) && TableOk(a.mrs) && PageAligned(a.ram.ranges)
      && Mapped(a.ram, a.mrs, wr.locTok, wr.locVa, wr.len) && wr.len <= MAX_PAYLOAD
      && |states[t].ring.applied| == |a.tx| && Receives(states[t].b, PeerWrite.Packet(a, wr))
    ensures var b, b' := states[t].b, states[t + 1].b;
      && MrRead(b'.ram, b.mrs, wr.remTok, wr.remVa, wr.len) == Some(Source(states[t0].a, wr))
      && forall x: nat :: x !in MrPas(b.ram, b.mrs, wr.remTok, wr.remVa, wr.len) ==>
          Peek(b'.ram.bytes, x) == Peek(b.ram.bytes, x)
  {
    var a := states[t0].a;
    assert Enabled(states[t0], steps[t0]) && states[t0 + 1] == Do(states[t0], steps[t0]);
    assert wr.locTok in a.mrs;
    hide Exec, PeerApply, Source, MrPas, Mapped, Receives, MrRead, Enabled, TableOk;
    SendsSourceIfItFits(a, ctx, wr);
    TxGrows(states, steps, t0 + 1, t);
    DrainApplies(states, steps, t);
    hide IsRun, Do;
    assert states[t].a.tx[|a.tx|] == PeerWrite.Packet(a, wr);
    ApplyStores(states[t].b, PeerWrite.Packet(a, wr));
  }

  /**
   Cross-node SEND over whole runs: A executes the SEND at step t0, B drains the packet it queued
   at step t and has a receive on the jetty. Then the buffer of the oldest such receive, if it can
   be written, holds the source bytes as they were at t0, all other memory of B is as it was before
   the drain, and that receive completes with the length, opcode and immediate of the SEND.
   */
  lemma SendArrives(states: seq<Joint>, steps: seq<Step>, t0: nat, t: nat, ctx: nat, wr: Wr, i: nat)
    requires IsRun(states, steps) && t0 < t < |steps| && steps[t0] == Execute(ctx, wr) && steps[t] == Drain
    requires wr.op == OP_SEND || wr.op == OP_SEND_IMM
    requires var a := states[t0].a;
      && TableOk(a.mrs) && PageAligned(a.ram.ranges) && a.hasPeer && NoRecv(a.recvs, wr.dcna)
      && Readable(a, wr.locTok, wr.locVa, wr.len) && 0 < wr.len <= MAX_PAYLOAD
      && |states[t].ring.applied| == |a.tx|
    requires Oldest(states[t].b.recvs, wr.dcna, i)
    requires var b, r := states[t].b, states[t].b.recvs[i];
      && Open(b, r.tok, r.va, wr.len) && Mapped(b.ram, b.mrs, r.tok, r.va, wr.len)
      && Distinct(MrPas(b.ram, b.mrs, r.tok, r.va, wr.len))
    ensures var a, b, b' := states[t0].a, states[t].b, states[t + 1].b;
      var r := b.recvs[i];
      && MrRead(b'.ram, b.mrs, r.tok, r.va, wr.len) == Some(Bytes(a, wr.locTok, wr.locVa, wr.len))
      && Confined(b.ram, b'.ram, b.mrs, r.tok, r.va, wr.len)
      && b'.recvs == b.recvs[..i] + b.recvs[i + 1..]
      && b'.log == b.log + [
           Raised(r.jfc, Cqe(wr.len, wr.op, r.uctx, 1, if wr.op == OP_SEND_IMM then 1 else 0, wr.imm, true))]
  {
    var a := states[t0].a;
    assert Enabled(states[t0], steps[t0]) && states[t0 + 1] == Do(states[t0], steps[t0]);
    hide Exec, PeerApply, MrPas, Mapped, MrRead, Enabled, TableOk, Readable, Open, Oldest, NoRecv, Bytes, Confined, Distinct;
    ReadableKnown(a, wr.locTok, wr.locVa, wr.len);
    CrossSend(a, ctx, wr);
    TxGrows(states, steps, t0 + 1, t);
    DrainApplies(states, steps, t);
    hide IsRun, Do;
    var p := Pkt(wr.op, wr.dcna, 0, 0, wr.imm, wr.order, Bytes(a, wr.locTok, wr.locVa, wr.len));
    assert states[t].a.tx[|a.tx|] == p;
    PeerSendLands(states[t].b, p, i);
  }
}
