/**
 Completion records from NIC to application: the 64-byte CQE that dp_push_cqe builds, the
 per-JFC queues, the slice reads of mmio_b that pop them, and the decoding in k_poll_jfc.
 */
module Completion {
  import opened Words
  import opened JfcQueue

  const SLOT_BYTES: nat := 64

  /** The arguments of dp_push_cqe. */
  datatype Cqe = Cqe(len: U32, op: Byte, uctx: U64, sr: Byte, immValid: Byte, imm: U32, ok: bool)

  function EncodeCqe(c: Cqe): (s: seq<Byte>)
    ensures |s| == SLOT_BYTES
  {
    var s0 := Put(Zeros(SLOT_BYTES), 0, Le(8, c.len * WORD32 + if c.ok then 1 else 2));
    var s1 := s0[8 := c.op][9 := c.sr][10 := c.immValid];
    var s2 := Put(s1, 16, Le(8, c.uctx));
    Put(s2, 24, Le(4, c.imm))
  }

  /** Where the fields are in the slot, byte by byte. */
  lemma CqeLayout(c: Cqe)
    ensures var s := EncodeCqe(c);
      && s[0..8] == Le(8, c.len * WORD32 + if c.ok then 1 else 2)
      && s[8] == c.op && s[9] == c.sr && s[10] == c.immValid
      && s[16..24] == Le(8, c.uctx) && s[24..28] == Le(4, c.imm)
      && (forall i :: 11 <= i < 16 || 28 <= i < 64 ==> s[i] == 0)
  {
    hide Le;
  }

  /** The fields of urma_cr_t that the provider fills; the rest is zero. */
  datatype Cr = Cr(success: bool, len: nat, uctx: nat, sr: nat, opcode: nat, imm: nat)

  function DecodeCr(l0: U64, w1: U64, w2: U64, w3: U64): Cr {
    var sr := w1 / 256 % 256;
    Cr(l0 % WORD32 == 1, l0 / WORD32, w2, sr,
       if sr != 0 then w1 % 256 else 0,
       if w1 / 0x1_0000 % 256 != 0 then w3 % WORD32 else 0)
  }

  /** What the application is to see of a completion. */
  function Seen(c: Cqe): Cr {
    Cr(c.ok, c.len, c.uctx, c.sr, if c.sr != 0 then c.op else 0, if c.immValid != 0 then c.imm else 0)
  }

  function DecodeSlot(s: seq<Byte>): Cr
    requires |s| == SLOT_BYTES
  {
    DecodeCr(Get64(s, 0), Get64(s, 8), Get64(s, 16), Get64(s, 24))
  }

  lemma Lane0(c: Cqe)
    ensures Get64(EncodeCqe(c), 0) == c.len * WORD32 + if c.ok then 1 else 2
    ensures Get64(EncodeCqe(c), 0) != 0
  {
    var l0 := c.len * WORD32 + if c.ok then 1 else 2;
    assert EncodeCqe(c)[0..8] == Le(8, l0);
    Get64Back(EncodeCqe(c), 0, l0);
  }

  lemma Lane1(c: Cqe)
    ensures Get64(EncodeCqe(c), 8) % 256 == c.op
    ensures Get64(EncodeCqe(c), 8) / 256 % 256 == c.sr
    ensures Get64(EncodeCqe(c), 8) / 0x1_0000 % 256 == c.immValid
  {
    var e := EncodeCqe(c);
    var s := e[8..16];
    assert s[0] == e[8] && s[1] == e[9] && s[2] == e[10];
    assert forall i :: 3 <= i < 8 ==> s[i] == e[8 + i];
    UnLe3(s);
    ThreeBytes(c.op, c.sr, c.immValid);
  }

  lemma ThreeBytes(a: Byte, b: Byte, c: Byte)
    ensures
      var w := a as int + 256 * (b as int + 256 * c as int);
      w % 256 == a && w / 256 % 256 == b && w / 0x1_0000 % 256 == c
  {
  }

  lemma UnLe3(s: seq<Byte>)
    requires |s| == 8 && forall i :: 3 <= i < 8 ==> s[i] == 0
    ensures UnLe(s) == s[0] as int + 256 * (s[1] as int + 256 * s[2] as int)
  {
    UnLeZero(s[3..]);
    assert s[1..][1..][1..] == s[3..];
    assert UnLe(s[2..]) == s[2] + 256 * UnLe(s[3..]) by { assert s[2..][1..] == s[3..]; }
    assert UnLe(s[1..]) == s[1] + 256 * UnLe(s[2..]) by { assert s[1..][1..] == s[2..]; }
  }

  lemma {:induction false} UnLeZero(s: seq<Byte>)
    requires forall i :: 0 <= i < |s| ==> s[i] == 0
    ensures UnLe(s) == 0
  {
    if s == [] {
    } else {
      UnLeZero(s[1..]);
    }
  }

  lemma Lane3(c: Cqe)
    ensures Get64(EncodeCqe(c), 24) % WORD32 == c.imm
  {
    hide Le, UnLe, Get64, Get32;
    var s := EncodeCqe(c);
    assert s[24..28] == Le(4, c.imm);
    hide EncodeCqe;
    Get32Back(s, 24, c.imm);
    Low32(s, 24);
  }

  /** Status, length, user context, direction, receive opcode and immediate all survive. */
  lemma CqeRoundTrip(c: Cqe)
    ensures DecodeSlot(EncodeCqe(c)) == Seen(c)
    ensures Get64(EncodeCqe(c), 0) != 0
  {
    Lane0(c);
    Lane1(c);
    Lane3(c);
    assert EncodeCqe(c)[16..24] == Le(8, c.uctx);
    Get64Back(EncodeCqe(c), 16, c.uctx);
  }

  // ---- the records that a poller gets out of the queues ----

  predicate ZeroLane(slot: seq<Byte>) { |slot| >= 8 && Get64(slot, 0) == 0 }

  ghost function EncodeEvents(es: seq<Event<Cqe>>): (r: seq<Event<seq<Byte>>>)
    ensures |r| == |es|
    ensures forall i :: 0 <= i < |es| ==>
      r[i] == match es[i] case Arrive(j, c) => Arrive(j, EncodeCqe(c)) case Poll(id) => Poll(id)
  {
    seq(|es|, i requires 0 <= i < |es| =>
      match es[i] case Arrive(j, c) => Arrive(j, EncodeCqe(c)) case Poll(id) => Poll(id))
  }

  ghost predicate EncodesAll(slots: seq<seq<Byte>>, cs: seq<Cqe>) {
    |slots| == |cs| && forall i :: 0 <= i < |cs| ==> slots[i] == EncodeCqe(cs[i])
  }

  lemma {:induction false} ArrivedEncoded(es: seq<Event<Cqe>>, id: U32)
    ensures EncodesAll(ArrivedFor(EncodeEvents(es), id), ArrivedFor(es, id))
    decreases |es|
  {
    if es == [] {
    } else {
      var before := es[..|es| - 1];
      ArrivedEncoded(before, id);
      assert EncodeEvents(es)[..|es| - 1] == EncodeEvents(before);
    }
  }

  /**
   Over every run of completions and polls, as long as no completion for this JFC met a full queue
   or went to a poll of another id: the i-th record polled shows the i-th completion raised for it.
   */
  lemma CompletionsArrive(es: seq<Event<Cqe>>, id: U32)
    requires id < JFC_SLOTS
    requires Lost(EncodeEvents(es), id, ZeroLane) == 0 && Diverted(EncodeEvents(es), id, ZeroLane) == 0
    ensures
      var polled, raised := PolledFrom(EncodeEvents(es), id, ZeroLane), ArrivedFor(es, id);
      && |polled| <= |raised|
      && forall i :: 0 <= i < |polled| ==> |polled[i]| == SLOT_BYTES && DecodeSlot(polled[i]) == Seen(raised[i])
  {
    var ee := EncodeEvents(es);
    forall i | 0 <= i < |ee| && ee[i].Arrive? ensures !ZeroLane(ee[i].slot) {
      Lane0(es[i].slot);
    }
    ChannelIsFifo(ee, id, ZeroLane);
    ArrivedEncoded(es, id);
    var polled, raised := PolledFrom(ee, id, ZeroLane), ArrivedFor(es, id);
    forall i | 0 <= i < |polled| ensures |polled[i]| == SLOT_BYTES && DecodeSlot(polled[i]) == Seen(raised[i]) {
      assert polled[i] == (polled + Queue(After(ee, ZeroLane), id))[i];
      CqeRoundTrip(raised[i]);
    }
  }
}
