/**
 The two flits of a work request: how the user-space provider lays out the fields (build_wr) and
 how the NIC reads them back (the doorbell branch of mmio_b).
 */
module WrCodec {
  import opened Words
  import opened Flits
  import opened DataPlane

  /** A bit field of a flit and the value put there. */
  datatype Field = Field(lane: nat, lo: nat, w: nat, v: nat)

  predicate FieldOk(g: Field) {
    g.lane < 8 && g.lo + g.w <= 64
  }

  predicate Apart(g: Field, h: Field) {
    g.lane != h.lane || g.lo + g.w <= h.lo || h.lo + h.w <= g.lo
  }

  function Read(f: seq<Byte>, g: Field): nat
    requires |f| == FLIT && FieldOk(g)
  {
    Bits(Lane(f, g.lane), g.lo, g.w)
  }

  /** The flit after a list of lane_set calls. */
  function Laid(f: seq<Byte>, gs: seq<Field>): (r: seq<Byte>)
    requires |f| == FLIT && forall i :: 0 <= i < |gs| ==> FieldOk(gs[i])
    ensures |r| == FLIT
  {
    if gs == [] then f
    else var g := gs[|gs| - 1]; assert FieldOk(g); LaneSet(Laid(f, gs[..|gs| - 1]), g.lane, g.lo, g.w, g.v)
  }

  /** A field apart from all those set keeps its value. */
  lemma {:induction false} FieldKept(f: seq<Byte>, gs: seq<Field>, h: Field)
    requires |f| == FLIT && FieldOk(h)
    requires forall i :: 0 <= i < |gs| ==> FieldOk(gs[i]) && Apart(gs[i], h)
    ensures Read(Laid(f, gs), h) == Read(f, h)
    decreases |gs|
  {
    hide Bits, SetBits, LaneSet, Lane;
    if gs == [] {
    } else {
      var g, f1 := gs[|gs| - 1], Laid(f, gs[..|gs| - 1]);
      FieldKept(f, gs[..|gs| - 1], h);
      LaneSetLane(f1, g.lane, g.lo, g.w, g.v, h.lane);
      if g.lane == h.lane {
        OtherField(Lane(f1, g.lane), g.lo, g.w, g.v, h.lo, h.w);
      }
    }
  }

  /** In any list of pairwise disjoint fields, each reads back the value it was given. */
  lemma {:induction false} FieldBack(f: seq<Byte>, gs: seq<Field>, i: nat)
    requires |f| == FLIT && i < |gs|
    requires forall k :: 0 <= k < |gs| ==> FieldOk(gs[k])
    requires forall j, k :: 0 <= j < k < |gs| ==> Apart(gs[j], gs[k])
    ensures Read(Laid(f, gs), gs[i]) == Bits(gs[i].v, 0, gs[i].w)
    decreases |gs|
  {
    hide Bits, SetBits, LaneSet, Lane;
    var g, f1 := gs[|gs| - 1], Laid(f, gs[..|gs| - 1]);
    LaneSetLane(f1, g.lane, g.lo, g.w, g.v, gs[i].lane);
    if i == |gs| - 1 {
      SameField(Lane(f1, g.lane), g.lo, g.w, g.v);
    } else {
      FieldBack(f, gs[..|gs| - 1], i);
      assert Apart(gs[i], g);
      if g.lane == gs[i].lane {
        OtherField(Lane(f1, g.lane), g.lo, g.w, g.v, gs[i].lo, gs[i].w);
      }
    }
  }

  // ---- the work request ----

  /** What a caller hands to build_wr. */
  datatype Post = Post(op: Byte, dcna: U32, tassn: nat, remVa: U64, locVa: U64, remTok: U32, locTok: U32,
                       len: U32, cmp: U64, val: U64, uctx: U64, imm: U32, order: Byte, sendJfc: U32)

  function MetaFields(p: Post): seq<Field> {
    [Field(0, 0, 24, p.dcna), Field(0, 60, 3, 2), Field(0, 63, 1, 1), Field(2, 58, 2, 0), Field(2, 61, 1, 1),
     Field(3, 0, 8, p.op), Field(3, 12, 1, 1), Field(3, 16, 16, p.tassn), Field(3, 43, 20, 7),
     Field(3, 32, 8, p.order), Field(1, 0, 32, p.sendJfc)]
  }

  function Meta(p: Post): (f: seq<Byte>)
    ensures |f| == FLIT
  {
    Laid(Zeros(FLIT), MetaFields(p))[32 := 1]
  }

  function Ext(p: Post): (f: seq<Byte>)
    ensures |f| == FLIT
  {
    Le(8, p.remVa) + Le(8, p.locVa) + Le(8, p.cmp) + Le(8, p.remTok + WORD32 * p.locTok)
    + [2] + Zeros(7) + Le(8, p.uctx) + Le(8, p.val) + Le(8, p.len + WORD32 * p.imm)
  }

  predicate Sop(f: seq<Byte>)
    requires |f| == FLIT
  {
    f[32] as int % 2 == 1
  }

  predicate Eop(f: seq<Byte>)
    requires |f| == FLIT
  {
    f[32] as int / 2 % 2 == 1
  }

  /** The WR the NIC reads from a stored meta flit and the extension flit in the slot. */
  function Decode(meta: seq<Byte>, ext: seq<Byte>): Wr
    requires |meta| == FLIT && |ext| == FLIT
  {
    var a3, a7 := Get64(ext, 24), Get64(ext, 56);
    Wr(meta[24], meta[28], Get64(meta, 0) % 0x100_0000, Get32(meta, 8),
       Get64(ext, 0), Get64(ext, 8), Get64(ext, 16), a3 % WORD32, a3 / WORD32,
       Get64(ext, 40), Get64(ext, 48), a7 % WORD32, a7 / WORD32)
  }

  /** The WR as posted, the destination cut to the 24 bits it has on the wire. */
  function Seen(p: Post): Wr {
    Wr(p.op, p.order, p.dcna % 0x100_0000, p.sendJfc, p.remVa, p.locVa, p.cmp, p.remTok, p.locTok,
       p.uctx, p.val, p.len, p.imm)
  }

  lemma MetaApart(p: Post)
    ensures var gs := MetaFields(p);
      && |gs| == 11 && (forall k :: 0 <= k < |gs| ==> FieldOk(gs[k]))
      && (forall j, k :: 0 <= j < k < |gs| ==> Apart(gs[j], gs[k]))
      && (forall k :: 0 <= k < |gs| ==> Apart(gs[k], Field(4, 0, 8, 0)))
  {
  }

  /** The flag byte is alone in its lane, so setting it leaves the fields. */
  lemma MetaField(p: Post, i: nat)
    requires i < 11
    ensures var g := MetaFields(p)[i]; FieldOk(g) && Read(Meta(p), g) == Bits(g.v, 0, g.w)
  {
    hide Bits, Laid, Get64, Zeros;
    MetaApart(p);
    FieldBack(Zeros(FLIT), MetaFields(p), i);
    var g, f := MetaFields(p)[i], Laid(Zeros(FLIT), MetaFields(p));
    SameLane(f, g.lane);
  }

  lemma SameLane(f: seq<Byte>, k: nat)
    requires |f| == FLIT && k < 8 && k != 4
    ensures Lane(f[32 := 1], k) == Lane(f, k)
  {
    assert f[32 := 1][8 * k..8 * k + 8] == f[8 * k..8 * k + 8];
  }

  /** A byte-wide field of the meta flit, read as a byte. */
  lemma MetaByte(p: Post, i: nat, lane: nat, k: nat, v: Byte)
    requires i < 11 && lane < 8 && k < 8 && MetaFields(p)[i] == Field(lane, 8 * k, 8, v)
    ensures Meta(p)[8 * lane + k] == v
  {
    hide Bits, Meta, Get64, Pow2;
    MetaField(p, i);
    ByteOfLane(Meta(p), lane, k);
    LowBits(v, 8);
    Pow2Values();
  }

  lemma MetaDest(p: Post)
    ensures Get64(Meta(p), 0) % 0x100_0000 == p.dcna % 0x100_0000
  {
    hide Bits, Meta, Get64, Pow2;
    MetaField(p, 0);
    Pow2Values();
    Pow2Add(16, 8);
    LowBits(p.dcna, 24);
    LowBits(Lane(Meta(p), 0), 24);
  }

  lemma MetaJfc(p: Post)
    ensures Get32(Meta(p), 8) == p.sendJfc
  {
    hide Bits, Meta, Get64, Get32, Pow2;
    MetaField(p, 10);
    Pow2Values();
    LowWord(Meta(p), 1);
    LowBits(p.sendJfc, 32);
  }

  lemma ExtDecodes(p: Post)
    ensures var e := Ext(p);
      && Get64(e, 0) == p.remVa && Get64(e, 8) == p.locVa && Get64(e, 16) == p.cmp
      && Get64(e, 24) == p.remTok + WORD32 * p.locTok && Get64(e, 40) == p.uctx && Get64(e, 48) == p.val
      && Get64(e, 56) == p.len + WORD32 * p.imm && e[32] == 2
  {
    hide Le, Get64, Zeros;
    var e := Ext(p);
    Get64Back(e, 0, p.remVa);
    Get64Back(e, 8, p.locVa);
    Get64Back(e, 16, p.cmp);
    Get64Back(e, 24, p.remTok + WORD32 * p.locTok);
    Get64Back(e, 40, p.uctx);
    Get64Back(e, 48, p.val);
    Get64Back(e, 56, p.len + WORD32 * p.imm);
  }

  /** Every field the NIC decodes is the one encoded, the destination modulo 2^24. */
  lemma DecodesAsPosted(p: Post)
    ensures Decode(Meta(p), Ext(p)) == Seen(p)
    ensures Sop(Meta(p)) && !Eop(Meta(p)) && !Sop(Ext(p)) && Eop(Ext(p))
  {
    hide Meta, Ext, Get64, Get32;
    MetaByte(p, 5, 3, 0, p.op);
    MetaByte(p, 9, 3, 4, p.order);
    MetaDest(p);
    MetaJfc(p);
    ExtDecodes(p);
    MetaFlag(p);
  }

  /** Where the fields are on the wire, byte by byte. */
  lemma FlitLayout(p: Post)
    ensures var m, e := Meta(p), Ext(p);
      && m[24] == p.op && m[28] == p.order && m[32] == 1 && Get32(m, 8) == p.sendJfc
      && Get64(m, 0) % 0x100_0000 == p.dcna % 0x100_0000
      && e[0..8] == Le(8, p.remVa) && e[8..16] == Le(8, p.locVa) && e[16..24] == Le(8, p.cmp)
      && e[24..32] == Le(8, p.remTok + WORD32 * p.locTok) && e[32] == 2
      && e[40..48] == Le(8, p.uctx) && e[48..56] == Le(8, p.val) && e[56..64] == Le(8, p.len + WORD32 * p.imm)
  {
    hide Meta, Le, Get64, Get32, Zeros;
    MetaByte(p, 5, 3, 0, p.op);
    MetaByte(p, 9, 3, 4, p.order);
    MetaDest(p);
    MetaJfc(p);
    MetaFlag(p);
  }

  lemma MetaFlag(p: Post)
    ensures Meta(p)[32] == 1
  {
  }

  // ---- writing the flits in place ----

  method CopyIn(f: array<Byte>, off: nat, data: seq<Byte>)
    requires off + |data| <= f.Length
    modifies f
    ensures f[..] == Put(old(f[..]), off, data)
  {
    var i := 0;
    while i < |data|
      invariant i <= |data|
      invariant forall k :: 0 <= k < f.Length ==> f[k] == if off <= k < off + i then data[k - off] else old(f[k])
    {
      f[off + i] := data[i];
      i := i + 1;
    }
  }

  method LaneSetInPlace(f: array<Byte>, lane: nat, lo: nat, w: nat, v: nat)
    requires f.Length == FLIT && lane < 8
    modifies f
    ensures f[..] == LaneSet(old(f[..]), lane, lo, w, v)
  {
    var cur := Get64(f[..], 8 * lane);
    CopyIn(f, 8 * lane, Le(8, SetBits(cur, lo, w, v)));
  }

  method Clear(f: array<Byte>)
    modifies f
    ensures f[..] == Zeros(f.Length)
  {
    var i := 0;
    while i < f.Length
      invariant i <= f.Length && forall k :: 0 <= k < i ==> f[k] == 0
    {
      f[i] := 0;
      i := i + 1;
    }
  }

  /** One more lane_set of the list. */
  lemma LaidNext(gs: seq<Field>, i: nat)
    requires i < |gs| && forall k :: 0 <= k < |gs| ==> FieldOk(gs[k])
    ensures var g := gs[i];
      Laid(Zeros(FLIT), gs[..i + 1]) == LaneSet(Laid(Zeros(FLIT), gs[..i]), g.lane, g.lo, g.w, g.v)
  {
    assert gs[..i + 1][..i] == gs[..i];
  }

  method BuildMeta(meta: array<Byte>, p: Post)
    requires meta.Length == FLIT
    modifies meta
    ensures meta[..] == Meta(p)
  {
    hide LaneSet, Laid;
    ghost var gs := MetaFields(p);
    MetaApart(p);
    Clear(meta);
    LaidNone(gs);
    LaidNext(gs, 0); LaneSetInPlace(meta, 0, 0, 24, p.dcna);
    LaidNext(gs, 1); LaneSetInPlace(meta, 0, 60, 3, 2);
    LaidNext(gs, 2); LaneSetInPlace(meta, 0, 63, 1, 1);
    LaidNext(gs, 3); LaneSetInPlace(meta, 2, 58, 2, 0);
    LaidNext(gs, 4); LaneSetInPlace(meta, 2, 61, 1, 1);
    LaidNext(gs, 5); LaneSetInPlace(meta, 3, 0, 8, p.op);
    LaidNext(gs, 6); LaneSetInPlace(meta, 3, 12, 1, 1);
    LaidNext(gs, 7); LaneSetInPlace(meta, 3, 16, 16, p.tassn);
    LaidNext(gs, 8); LaneSetInPlace(meta, 3, 43, 20, 7);
    LaidNext(gs, 9); LaneSetInPlace(meta, 3, 32, 8, p.order);
    LaidNext(gs, 10); LaneSetInPlace(meta, 1, 0, 32, p.sendJfc);
    assert gs[..11] == gs;
    meta[32] := 1;
  }

  lemma LaidNone(gs: seq<Field>)
    requires forall k :: 0 <= k < |gs| ==> FieldOk(gs[k])
    ensures Laid(Zeros(FLIT), gs[..0]) == Zeros(FLIT)
  {
  }

  method BuildExt(ext: array<Byte>, p: Post)
    requires ext.Length == FLIT
    modifies ext
    ensures ext[..] == Ext(p)
  {
    hide Le, Zeros;
    Clear(ext);
    CopyIn(ext, 0, Le(8, p.remVa));
    CopyIn(ext, 8, Le(8, p.locVa));
    CopyIn(ext, 16, Le(8, p.cmp));
    CopyIn(ext, 24, Le(8, p.remTok + WORD32 * p.locTok));
    ext[32] := 2;
    CopyIn(ext, 40, Le(8, p.uctx));
    CopyIn(ext, 48, Le(8, p.val));
    CopyIn(ext, 56, Le(8, p.len + WORD32 * p.imm));
  }
}
