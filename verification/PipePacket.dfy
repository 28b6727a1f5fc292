/**
 One MTU-sized packet of the pipeline path: how ou_pipe_route cuts a chunk into a meta flit,
 an extension flit and payload flits, and how the responder's UB_HBM_Write element lands
 them. The stages in between are represented by the assumption that they hand the flits of
 one packet over in order.
 */
module PipePacket {
  import opened Words

  const PACKET: nat := 256
  const FLIT: nat := 32

  /** The fields of a flit that the landing element reads. */
  datatype Flit = Flit(sop: bool, eop: bool, address: nat, length: nat, opData: U64, data: seq<Byte>)

  /** State of UB_HBM_Write. */
  datatype HbmWrite = HbmWrite(hbm: seq<Byte>, sawMeta: bool, sawExt: bool, curAddr: nat, curRemaining: nat)

  predicate HbmOk(hw: HbmWrite) { |hw.hbm| >= PACKET }

  ghost predicate WholeFlits(fs: seq<Flit>) { forall i :: 0 <= i < |fs| ==> |fs[i].data| == FLIT }

  function Take(n: nat): nat { if n > FLIT then FLIT else n }

  function Pad(s: seq<Byte>): (r: seq<Byte>)
    requires |s| <= FLIT
    ensures |r| == FLIT && r[..|s|] == s
  {
    s + Zeros(FLIT - |s|)
  }

  /** The payload flits of a chunk from offset p on. */
  function Payload(cs: seq<Byte>, p: nat): (r: seq<Flit>)
    requires p <= |cs|
    ensures WholeFlits(r)
    decreases |cs| - p
  {
    if p == |cs| then []
    else
      var take := Take(|cs| - p);
      [Flit(false, p + take >= |cs|, 0, 0, 0, Pad(cs[p..p + take]))] + Payload(cs, p + take)
  }

  function Packet(cs: seq<Byte>): (r: seq<Flit>)
    ensures WholeFlits(r)
  {
    [Flit(true, false, 0, 0, 0, Zeros(FLIT)), Flit(false, false, 0, |cs|, 0, Zeros(FLIT))] + Payload(cs, 0)
  }

  /** memset(hbm, 0, n) before a chunk is sent. */
  function Cleared(hw: HbmWrite, n: nat): (r: HbmWrite)
    requires n <= |hw.hbm|
    ensures |r.hbm| == |hw.hbm|
  {
    hw.(hbm := Put(hw.hbm, 0, Zeros(n)))
  }

  /** The handler of UB_HBM_Write on one flit. */
  function LandFlit(hw: HbmWrite, f: Flit): (r: HbmWrite)
    requires |f.data| == FLIT
    ensures |r.hbm| == |hw.hbm|
  {
    if f.sop then HbmWrite(hw.hbm, true, false, 0, 0)
    else if hw.sawMeta && !hw.sawExt then
      var hbm := if f.eop && f.length <= 8 && f.address + f.length <= |hw.hbm|
                 then Put(hw.hbm, f.address, Le(f.length, f.opData)) else hw.hbm;
      if f.eop then HbmWrite(hbm, false, false, f.address, 0)
      else HbmWrite(hbm, true, true, f.address, f.length)
    else if hw.sawMeta && hw.curRemaining > 0 then
      var take := Take(hw.curRemaining);
      var hbm := if hw.curAddr + take <= |hw.hbm| then Put(hw.hbm, hw.curAddr, f.data[..take]) else hw.hbm;
      if f.eop then HbmWrite(hbm, false, false, hw.curAddr + take, 0)
      else HbmWrite(hbm, true, true, hw.curAddr + take, hw.curRemaining - take)
    else hw
  }

  function Land(hw: HbmWrite, fs: seq<Flit>): (r: HbmWrite)
    requires WholeFlits(fs)
    ensures |r.hbm| == |hw.hbm|
    decreases |fs|
  {
    if fs == [] then hw else Land(LandFlit(hw, fs[0]), fs[1..])
  }

  /** The first n payload bytes of a run of flits. */
  function Unpack(fs: seq<Flit>, n: nat): seq<Byte>
    requires WholeFlits(fs)
  {
    if fs == [] then [] else fs[0].data[..Take(n)] + Unpack(fs[1..], n - Take(n))
  }

  lemma {:induction false} PayloadFlags(cs: seq<Byte>, p: nat)
    requires p < |cs|
    ensures |Payload(cs, p)| > 0
    ensures forall i :: 0 <= i < |Payload(cs, p)| ==>
      !Payload(cs, p)[i].sop && (Payload(cs, p)[i].eop <==> i == |Payload(cs, p)| - 1)
    decreases |cs| - p
  {
    var take := Take(|cs| - p);
    if p + take < |cs| {
      PayloadFlags(cs, p + take);
      var rest := Payload(cs, p + take);
      forall i | 0 <= i < |Payload(cs, p)|
        ensures !Payload(cs, p)[i].sop && (Payload(cs, p)[i].eop <==> i == |Payload(cs, p)| - 1)
      {
        if i > 0 {
          assert Payload(cs, p)[i] == rest[i - 1];
        }
      }
    }
  }

  lemma {:induction false} PayloadBytes(cs: seq<Byte>, p: nat)
    requires p <= |cs|
    ensures Unpack(Payload(cs, p), |cs| - p) == cs[p..]
    decreases |cs| - p
  {
    if p < |cs| {
      var take := Take(|cs| - p);
      PayloadBytes(cs, p + take);
      assert Payload(cs, p)[1..] == Payload(cs, p + take);
      assert cs[p..] == cs[p..p + take] + cs[p + take..];
    }
  }

  /**
   Every packet starts with its one sop flit, ends with its one eop flit, and carries
   exactly the chunk, padded to a whole number of flits.
   */
  lemma PacketShape(cs: seq<Byte>)
    requires cs != []
    ensures forall i :: 0 <= i < |Packet(cs)| ==>
      (Packet(cs)[i].sop <==> i == 0) && (Packet(cs)[i].eop <==> i == |Packet(cs)| - 1)
    ensures Unpack(Packet(cs)[2..], |cs|) == cs
  {
    PayloadFlags(cs, 0);
    PayloadBytes(cs, 0);
    assert Packet(cs)[2..] == Payload(cs, 0) && cs[0..] == cs;
  }

  lemma PutPut(buf: seq<Byte>, p: nat, a: seq<Byte>, b: seq<Byte>)
    requires p + |a| + |b| <= |buf|
    ensures Put(Put(buf, p, a), p + |a|, b) == Put(buf, p, a + b)
  {
  }

  lemma {:induction false} PayloadLands(hw: HbmWrite, cs: seq<Byte>, p: nat)
    requires p < |cs| <= |hw.hbm|
    requires hw.sawMeta && hw.sawExt && hw.curAddr == p && hw.curRemaining == |cs| - p
    ensures Land(hw, Payload(cs, p)).hbm == Put(hw.hbm, p, cs[p..])
    decreases |cs| - p
  {
    var take := Take(|cs| - p);
    var f := Payload(cs, p)[0];
    var next := LandFlit(hw, f);
    assert f.data[..take] == cs[p..p + take];
    assert Payload(cs, p)[1..] == Payload(cs, p + take);
    if p + take < |cs| {
      PayloadLands(next, cs, p + take);
      PutPut(hw.hbm, p, cs[p..p + take], cs[p + take..]);
      assert cs[p..] == cs[p..p + take] + cs[p + take..];
    } else {
      assert cs[p..] == cs[p..p + take];
    }
  }

  /** Whatever state the element is in, a packet lands as its chunk at offset 0. */
  lemma PacketLands(hw: HbmWrite, cs: seq<Byte>)
    requires 0 < |cs| <= |hw.hbm|
    ensures Land(hw, Packet(cs)).hbm == Put(hw.hbm, 0, cs)
    ensures Land(hw, Packet(cs)).hbm[..|cs|] == cs
  {
    var fs := Packet(cs);
    var h1 := LandFlit(hw, fs[0]);
    var h2 := LandFlit(h1, fs[1]);
    assert fs[1..][1..] == Payload(cs, 0);
    PayloadLands(h2, cs, 0);
    assert cs[0..] == cs;
  }
}
