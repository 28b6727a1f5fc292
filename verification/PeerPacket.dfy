/** The wire packet between two nodes (ou_build_pkt and the header reads of peer_apply). */
module PeerPacket {
  import opened Words

  const HEADER: nat := 40
  const SLOT: nat := 8192
  /** Largest payload that fits a ring slot after its length prefix and header. */
  const MAX_PAYLOAD: nat := 8148

  datatype Pkt = Pkt(op: Byte, dcna: U32, rtoken: U32, rva: U64, imm: U32, order: Byte, payload: seq<Byte>)

  function Header(p: Pkt): (h: seq<Byte>)
    requires |p.payload| < WORD32
    ensures |h| == HEADER
  {
    var h0 := Zeros(HEADER)[0 := p.op];
    var h1 := Put(h0, 4, Le(4, p.dcna));
    var h2 := Put(h1, 8, Le(4, p.rtoken));
    var h3 := Put(h2, 16, Le(8, p.rva));
    var h4 := Put(h3, 24, Le(4, |p.payload|));
    var h5 := Put(h4, 28, Le(4, p.imm));
    h5[32 := p.order]
  }

  function Encode(p: Pkt): (bytes: seq<Byte>)
    requires |p.payload| < WORD32
    ensures |bytes| == HEADER + |p.payload|
  {
    Header(p) + p.payload
  }

  /** The length field, which peer_apply trusts to count the payload bytes behind the header. */
  function PayloadLen(pkt: seq<Byte>): nat
    requires |pkt| >= HEADER
  {
    Get32(pkt, 24)
  }

  function Decode(pkt: seq<Byte>): (p: Pkt)
    requires |pkt| >= HEADER && HEADER + PayloadLen(pkt) <= |pkt|
  {
    Pkt(pkt[0], Get32(pkt, 4), Get32(pkt, 8), Get64(pkt, 16), Get32(pkt, 28), pkt[32],
        pkt[HEADER..HEADER + PayloadLen(pkt)])
  }

  lemma HeaderFields(p: Pkt)
    requires |p.payload| < WORD32
    ensures
      var h := Header(p);
      && h[0] == p.op && h[32] == p.order
      && h[4..8] == Le(4, p.dcna) && h[8..12] == Le(4, p.rtoken) && h[16..24] == Le(8, p.rva)
      && h[24..28] == Le(4, |p.payload|) && h[28..32] == Le(4, p.imm)
  {
  }

  lemma EncodeSlice(p: Pkt, a: nat, b: nat)
    requires |p.payload| < WORD32 && a <= b <= HEADER
    ensures Encode(p)[a..b] == Header(p)[a..b]
  {
  }

  /** Every field of a built packet, payload included, is recovered by the reader. */
  lemma RoundTrip(p: Pkt)
    requires |p.payload| < WORD32
    ensures HEADER + PayloadLen(Encode(p)) == |Encode(p)|
    ensures Decode(Encode(p)) == p
  {
    var e := Encode(p);
    HeaderFields(p);
    EncodeSlice(p, 4, 8);
    Get32Back(e, 4, p.dcna);
    EncodeSlice(p, 8, 12);
    Get32Back(e, 8, p.rtoken);
    EncodeSlice(p, 16, 24);
    Get64Back(e, 16, p.rva);
    EncodeSlice(p, 24, 28);
    Get32Back(e, 24, |p.payload|);
    EncodeSlice(p, 28, 32);
    Get32Back(e, 28, p.imm);
    assert e[HEADER..] == p.payload;
  }
}
