/**
 Copies between registered regions: the functional copy through a 4 KB bounce buffer
 (ou_copy_mr), and the copy that carries the bytes through the pipeline in 256-byte packets
 of 32-byte flits (ou_pipe_copy, ou_pipe_route). Both are the same flat-memory move.
 */
module MrCopy {
  import opened Words
  import opened GuestMemory
  import opened PageTable
  import opened MrAccess
  import opened PipePacket

  const BOUNCE: nat := 4096

  function CopyMr(ram: Ram, mrs: MrTable, dt: U32, dv: U64, st: U32, sv: U64, len: nat): (w: Written)
    ensures w.ram.ranges == ram.ranges
    decreases len
  {
    if len == 0 then Written(ram, true)
    else
      var n := Min(len, BOUNCE);
      match MrRead(ram, mrs, st, sv, n)
      case None => Written(ram, false)
      case Some(buf) =>
        var w := MrWrite(ram, mrs, dt, dv, buf);
        if !w.ok then w
        else CopyMr(w.ram, mrs, dt, Plus(dv, n), st, Plus(sv, n), len - n)
  }

  /** ou_pipe_route with the pipeline present: one packet per 256 bytes, harvested as it lands. */
  function RouteFrom(ram: Ram, hw: HbmWrite, mrs: MrTable, data: seq<Byte>, dt: U32, dv: U64): (w: Written)
    requires HbmOk(hw)
    ensures w.ram.ranges == ram.ranges
    decreases |data|
  {
    if data == [] then Written(ram, true)
    else
      var n := Min(|data|, PACKET);
      var landed := Land(Cleared(hw, n), Packet(data[..n]));
      var w := MrWrite(ram, mrs, dt, dv, landed.hbm[..n]);
      if !w.ok then w
      else RouteFrom(w.ram, landed, mrs, data[n..], dt, Plus(dv, n))
  }

  function PipeRoute(ram: Ram, hw: HbmWrite, mrs: MrTable, data: seq<Byte>, dt: U32, dv: U64): (w: Written)
    requires HbmOk(hw)
    ensures w.ram.ranges == ram.ranges
  {
    if data == [] then Written(ram, false) else RouteFrom(ram, hw, mrs, data, dt, dv)
  }

  function PipeCopy(ram: Ram, hw: HbmWrite, mrs: MrTable, dt: U32, dv: U64, st: U32, sv: U64, len: nat): (w: Written)
    requires HbmOk(hw)
    ensures w.ram.ranges == ram.ranges
  {
    if len == 0 then Written(ram, false)
    else match MrRead(ram, mrs, st, sv, len)
      case None => Written(ram, false)
      case Some(buf) => PipeRoute(ram, hw, mrs, buf, dt, dv)
  }

  // ---- regions as flat memory ----

  ghost function MrPas(ram: Ram, mrs: MrTable, token: U32, va: U64, len: nat): (r: seq<nat>)
    requires token in mrs
    ensures |r| == len
  {
    Pas(mrs[token].mmu, ram, Addresses(va, len))
  }

  ghost predicate MrTablesSafe(ram: Ram, mrs: MrTable, token: U32, va: U64, len: nat, pas: seq<nat>)
    requires token in mrs
  {
    TablesSafe(mrs[token].mmu, ram, Addresses(va, len), pas)
  }

  /** The range lies in the region and does not wrap the address space. */
  ghost predicate InBounds(m: Mr, va: U64, len: nat) {
    m.vaBase <= va && va - m.vaBase + len <= m.len && va + len <= WORD64
  }

  /**
   The bounds test in plain arithmetic: the range ends inside the region, unless the 64-bit sum of
   the test wraps; then only what is left of that sum is compared with the length of the region.
   */
  predicate Granted(m: Mr, va: U64, len: nat) {
    && m.vaBase <= va
    && if va - m.vaBase + len < WORD64 then va + len <= m.vaBase + m.len
       else (va - m.vaBase + len) % WORD64 <= m.len
  }

  lemma TestIsGranted(m: Mr, va: U64, len: nat)
    ensures InMr(m, va, len) <==> Granted(m, va, len)
  {
  }

  /** [va, va + len) of the region is in bounds and each byte is mapped to backed memory. */
  ghost predicate Mapped(ram: Ram, mrs: MrTable, token: U32, va: U64, len: nat) {
    token in mrs && InBounds(mrs[token], va, len) && Resident(ram, MrPas(ram, mrs, token, va, len))
  }

  /** A successful region read is the flat-memory read of the byte-by-byte translations. */
  lemma MrReadIsBytewise(ram: Ram, mrs: MrTable, token: U32, va: U64, len: nat)
    requires TableOk(mrs)
    requires MrRead(ram, mrs, token, va, len).Some?
    ensures MrRead(ram, mrs, token, va, len).value == Gather(ram.bytes, MrPas(ram, mrs, token, va, len))
    ensures Resident(ram, MrPas(ram, mrs, token, va, len))
  {
    RangeRead(mrs[token].mmu, ram, va, len);
  }

  /**
   The exact condition under which a region read succeeds: the bounds allow it, and each page of
   the range lies in one backed range. Where backed ranges are page-aligned, the latter is every
   single byte being resident.
   */
  lemma MrReadSucceedsExactly(ram: Ram, mrs: MrTable, token: U32, va: U64, len: nat)
    requires TableOk(mrs)
    ensures MrRead(ram, mrs, token, va, len).Some? <==>
      token in mrs && Granted(mrs[token], va, len) && PiecesBacked(mrs[token].mmu, ram, Pieces(va, len))
    ensures PageAligned(ram.ranges) ==>
      (MrRead(ram, mrs, token, va, len).Some? <==>
         token in mrs && Granted(mrs[token], va, len) && Resident(ram, MrPas(ram, mrs, token, va, len)))
  {
    hide PiecesBacked, Resident, ReadPieces, Pieces, InMr, Granted;
    if token in mrs {
      TestIsGranted(mrs[token], va, len);
    }
    if token in mrs && InMr(mrs[token], va, len) {
      ReadPiecesExactly(mrs[token].mmu, ram, Pieces(va, len));
    }
    if token in mrs && InMr(mrs[token], va, len) && PageAligned(ram.ranges) {
      if MrRead(ram, mrs, token, va, len).Some? {
        MrReadIsBytewise(ram, mrs, token, va, len);
      } else if Resident(ram, MrPas(ram, mrs, token, va, len)) {
        PiecesAreTheRange(va, len);
        ReadSucceeds(mrs[token].mmu, ram, Pieces(va, len));
      }
    }
  }

  /** A region write that spares its own descriptors is the flat-memory store. */
  lemma MrWriteIsBytewise(ram: Ram, mrs: MrTable, token: U32, va: U64, data: seq<Byte>)
    requires TableOk(mrs)
    requires token in mrs
    requires MrTablesSafe(ram, mrs, token, va, |data|, MrPas(ram, mrs, token, va, |data|))
    ensures MrWrite(ram, mrs, token, va, data).ok <==> MrRead(ram, mrs, token, va, |data|).Some?
    ensures MrWrite(ram, mrs, token, va, data).ok ==>
      MrWrite(ram, mrs, token, va, data).ram
      == ram.(bytes := Scatter(ram.bytes, MrPas(ram, mrs, token, va, |data|), data))
  {
    RangeWrite(mrs[token].mmu, ram, va, data, Addresses(va, |data|));
  }

  /** A store that spares the descriptors of a range leaves its translations alone. */
  lemma StoreKeepsPas(ram: Ram, mrs: MrTable, token: U32, va: U64, len: nat, pas: seq<nat>, data: seq<Byte>)
    requires TableOk(mrs)
    requires token in mrs && |pas| == |data| && MrTablesSafe(ram, mrs, token, va, len, pas)
    ensures
      var ram' := ram.(bytes := Scatter(ram.bytes, pas, data));
      && SameWalks(mrs[token].mmu, ram, ram', Addresses(va, len))
      && MrPas(ram', mrs, token, va, len) == MrPas(ram, mrs, token, va, len)
  {
    var m := mrs[token].mmu;
    StoreKeepsWalks(m, ram, Addresses(va, len), pas, data);
    SameWalksSamePas(m, ram, ram.(bytes := Scatter(ram.bytes, pas, data)), Addresses(va, len));
  }

  /** What is written to distinct addresses is read back, and no other byte changes. */
  lemma MrReadBack(ram: Ram, mrs: MrTable, token: U32, va: U64, data: seq<Byte>)
    requires TableOk(mrs)
    requires token in mrs
    requires MrTablesSafe(ram, mrs, token, va, |data|, MrPas(ram, mrs, token, va, |data|))
    requires Distinct(MrPas(ram, mrs, token, va, |data|))
    requires MrWrite(ram, mrs, token, va, data).ok
    ensures
      var ram' := MrWrite(ram, mrs, token, va, data).ram;
      && MrRead(ram', mrs, token, va, |data|) == Some(data)
      && forall a: nat :: a !in MrPas(ram, mrs, token, va, |data|) ==> Peek(ram'.bytes, a) == Peek(ram.bytes, a)
  {
    var m, len := mrs[token].mmu, |data|;
    var pas := MrPas(ram, mrs, token, va, len);
    MrWriteIsBytewise(ram, mrs, token, va, data);
    var ram' := ram.(bytes := Scatter(ram.bytes, pas, data));
    StoreKeepsPas(ram, mrs, token, va, len, pas, data);
    PiecesAreTheRange(va, len);
    SameWalksSameSuccess(m, ram, ram', Pieces(va, len));
    MrReadIsBytewise(ram', mrs, token, va, len);
    GatherScatter(ram.bytes, pas, data);
    forall a: nat | a !in pas ensures Peek(ram'.bytes, a) == Peek(ram.bytes, a) {
      ScatterOutside(ram.bytes, pas, data, a);
    }
  }

  // ---- transfers cut in two ----

  lemma InBoundsCut(m: Mr, va: U64, len: nat, n: nat)
    requires InBounds(m, va, len) && n <= len
    ensures InMr(m, va, n) && InBounds(m, va, n)
    ensures n < len ==> Plus(va, n) == va + n && InBounds(m, Plus(va, n), len - n)
  {
  }

  lemma MrPasCut(ram: Ram, mrs: MrTable, token: U32, va: U64, len: nat, n: nat)
    requires token in mrs && n <= len
    ensures MrPas(ram, mrs, token, va, n) == MrPas(ram, mrs, token, va, len)[..n]
    ensures MrPas(ram, mrs, token, Plus(va, n), len - n) == MrPas(ram, mrs, token, va, len)[n..]
  {
    AddressesCut(va, len, n);
    PasAppend(mrs[token].mmu, ram, Addresses(va, n), Addresses(Plus(va, n), len - n));
  }

  lemma MappedCut(ram: Ram, mrs: MrTable, token: U32, va: U64, len: nat, n: nat)
    requires Mapped(ram, mrs, token, va, len) && n <= len
    ensures Mapped(ram, mrs, token, va, n)
    ensures n < len ==> Mapped(ram, mrs, token, Plus(va, n), len - n)
  {
    InBoundsCut(mrs[token], va, len, n);
    MrPasCut(ram, mrs, token, va, len, n);
  }

  lemma TablesSafeCut(ram: Ram, mrs: MrTable, token: U32, va: U64, len: nat, n: nat, pas: seq<nat>, k: nat)
    requires token in mrs && n <= len && k <= |pas| && MrTablesSafe(ram, mrs, token, va, len, pas)
    ensures MrTablesSafe(ram, mrs, token, va, n, pas[..k])
    ensures MrTablesSafe(ram, mrs, token, Plus(va, n), len - n, pas[k..])
  {
    AddressesCut(va, len, n);
    var v, w := Addresses(va, n), Addresses(Plus(va, n), len - n);
    TablesSafePart(mrs[token].mmu, ram, ram, v, w, pas[..k], pas[k..]);
    assert pas[..k] + pas[k..] == pas;
  }

  lemma TablesSafeFewer(ram: Ram, mrs: MrTable, token: U32, va: U64, len: nat, pas: seq<nat>, k: nat)
    requires token in mrs && k <= |pas| && MrTablesSafe(ram, mrs, token, va, len, pas)
    ensures MrTablesSafe(ram, mrs, token, va, len, pas[..k])
  {
  }

  /** Reading the mapped range returns its flat bytes. */
  lemma MappedRead(ram: Ram, mrs: MrTable, token: U32, va: U64, len: nat)
    requires TableOk(mrs)
    requires PageAligned(ram.ranges) && Mapped(ram, mrs, token, va, len)
    ensures MrRead(ram, mrs, token, va, len) == Some(Gather(ram.bytes, MrPas(ram, mrs, token, va, len)))
  {
    InBoundsCut(mrs[token], va, len, len);
    TestIsGranted(mrs[token], va, len);
    MrReadSucceedsExactly(ram, mrs, token, va, len);
    MrReadIsBytewise(ram, mrs, token, va, len);
  }

  /** A destination range that may be written: mapped, and holding none of its own descriptors. */
  ghost predicate Target(ram: Ram, mrs: MrTable, token: U32, va: U64, len: nat) {
    && PageAligned(ram.ranges)
    && Mapped(ram, mrs, token, va, len)
    && MrTablesSafe(ram, mrs, token, va, len, MrPas(ram, mrs, token, va, len))
  }

  /** Writing the first n bytes of a target range: the store it makes, and the target left over. */
  lemma TargetHead(ram: Ram, mrs: MrTable, token: U32, va: U64, data: seq<Byte>, n: nat)
    requires TableOk(mrs)
    requires Target(ram, mrs, token, va, |data|) && n <= |data|
    ensures
      var pas := MrPas(ram, mrs, token, va, |data|);
      var ram1 := ram.(bytes := Scatter(ram.bytes, pas[..n], data[..n]));
      && MrWrite(ram, mrs, token, va, data[..n]) == Written(ram1, true)
      && (n < |data| ==> Target(ram1, mrs, token, Plus(va, n), |data| - n)
                         && MrPas(ram1, mrs, token, Plus(va, n), |data| - n) == pas[n..])
  {
    var len := |data|;
    var pas := MrPas(ram, mrs, token, va, len);
    var ram1 := ram.(bytes := Scatter(ram.bytes, pas[..n], data[..n]));
    MappedCut(ram, mrs, token, va, len, n);
    MrPasCut(ram, mrs, token, va, len, n);
    TablesSafeCut(ram, mrs, token, va, len, n, pas, n);
    TablesSafeFewer(ram, mrs, token, va, len, pas, n);
    MappedRead(ram, mrs, token, va, n);
    MrWriteIsBytewise(ram, mrs, token, va, data[..n]);
    if n < len {
      StoreKeepsPas(ram, mrs, token, va, len, pas[..n], data[..n]);
      MrPasCut(ram1, mrs, token, va, len, n);
      TargetRest(ram, ram1, mrs, token, va, len, n);
    }
  }

  lemma TargetRest(ram: Ram, ram1: Ram, mrs: MrTable, token: U32, va: U64, len: nat, n: nat)
    requires Target(ram, mrs, token, va, len) && n < len
    requires SameWalks(mrs[token].mmu, ram, ram1, Addresses(va, len))
    requires MrPas(ram1, mrs, token, va, len) == MrPas(ram, mrs, token, va, len)
    ensures Target(ram1, mrs, token, Plus(va, n), len - n)
  {
    var pas := MrPas(ram, mrs, token, va, len);
    assert MrTablesSafe(ram1, mrs, token, va, len, pas);
    assert Resident(ram1, pas);
    MappedCut(ram1, mrs, token, va, len, n);
    MrPasCut(ram1, mrs, token, va, len, n);
    TablesSafeCut(ram1, mrs, token, va, len, n, pas, n);
  }

  /** The first packet of a routed transfer: one write of its bytes, and the rest routed on. */
  lemma RouteStep(ram: Ram, hw: HbmWrite, mrs: MrTable, data: seq<Byte>, dt: U32, dv: U64) returns (landed: HbmWrite)
    requires HbmOk(hw) && data != []
    ensures HbmOk(landed)
    ensures
      var n := Min(|data|, PACKET);
      var w := MrWrite(ram, mrs, dt, dv, data[..n]);
      RouteFrom(ram, hw, mrs, data, dt, dv)
      == if !w.ok then w else RouteFrom(w.ram, landed, mrs, data[n..], dt, Plus(dv, n))
  {
    hide MrWrite, Land, Packet, Cleared, Plus;
    var n := Min(|data|, PACKET);
    PacketLands(Cleared(hw, n), data[..n]);
    landed := Land(Cleared(hw, n), Packet(data[..n]));
  }

  /** Routed through the pipeline packet by packet, the bytes are stored as one flat write. */
  lemma {:induction false} RouteIsStore(ram: Ram, hw: HbmWrite, mrs: MrTable, data: seq<Byte>, dt: U32, dv: U64)
    requires TableOk(mrs)
    requires HbmOk(hw) && Target(ram, mrs, dt, dv, |data|)
    ensures RouteFrom(ram, hw, mrs, data, dt, dv)
         == Written(ram.(bytes := Scatter(ram.bytes, MrPas(ram, mrs, dt, dv, |data|), data)), true)
    decreases |data|
  {
    TargetKnown(ram, mrs, dt, dv, |data|);
    if data == [] {
    } else {
      hide MrWrite, RouteFrom, Target, MrPas, Scatter, TableOk, Plus;
      var n, pas := Min(|data|, PACKET), MrPas(ram, mrs, dt, dv, |data|);
      var landed := RouteStep(ram, hw, mrs, data, dt, dv);
      TargetHead(ram, mrs, dt, dv, data, n);
      var ram1 := ram.(bytes := Scatter(ram.bytes, pas[..n], data[..n]));
      ScatterCut(ram.bytes, pas, data, n);
      if n < |data| {
        RouteIsStore(ram1, landed, mrs, data[n..], dt, Plus(dv, n));
      } else {
        assert data[n..] == [] && pas[..n] == pas && data[..n] == data;
        RouteNothing(ram1, landed, mrs, dt, Plus(dv, n));
      }
    }
  }

  lemma TargetKnown(ram: Ram, mrs: MrTable, token: U32, va: U64, len: nat)
    requires Target(ram, mrs, token, va, len)
    ensures token in mrs
  {
  }

  lemma RouteNothing(ram: Ram, hw: HbmWrite, mrs: MrTable, dt: U32, dv: U64)
    requires HbmOk(hw)
    ensures RouteFrom(ram, hw, mrs, [], dt, dv) == Written(ram, true)
  {
  }

  /** What was left in the landing buffer by earlier packets never matters. */
  lemma {:induction false} RouteIgnoresHbm(ram: Ram, hw: HbmWrite, hw2: HbmWrite, mrs: MrTable, data: seq<Byte>,
                                           dt: U32, dv: U64)
    requires HbmOk(hw) && HbmOk(hw2)
    ensures RouteFrom(ram, hw, mrs, data, dt, dv) == RouteFrom(ram, hw2, mrs, data, dt, dv)
    decreases |data|
  {
    hide MrWrite, Land, Packet, Cleared;
    if data == [] {
    } else {
      var n := Min(|data|, PACKET);
      PacketLands(Cleared(hw, n), data[..n]);
      PacketLands(Cleared(hw2, n), data[..n]);
      var l, l2 := Land(Cleared(hw, n), Packet(data[..n])), Land(Cleared(hw2, n), Packet(data[..n]));
      var w := MrWrite(ram, mrs, dt, dv, data[..n]);
      RouteIgnoresHbm(w.ram, l, l2, mrs, data[n..], dt, Plus(dv, n));
    }
  }

  // ---- the two copies ----

  /** Both ranges mapped, physically disjoint, and no descriptor of either in the destination. */
  ghost predicate Movable(ram: Ram, mrs: MrTable, dt: U32, dv: U64, st: U32, sv: U64, len: nat) {
    && Target(ram, mrs, dt, dv, len)
    && Mapped(ram, mrs, st, sv, len)
    && Disjoint(MrPas(ram, mrs, st, sv, len), MrPas(ram, mrs, dt, dv, len))
    && MrTablesSafe(ram, mrs, st, sv, len, MrPas(ram, mrs, dt, dv, len))
  }

  /** The flat-memory move that both copies are to perform. */
  ghost function Moved(ram: Ram, mrs: MrTable, dt: U32, dv: U64, st: U32, sv: U64, len: nat): Ram
    requires dt in mrs && st in mrs
  {
    ram.(bytes := Scatter(ram.bytes, MrPas(ram, mrs, dt, dv, len), Gather(ram.bytes, MrPas(ram, mrs, st, sv, len))))
  }

  /** After the first n bytes the rest is still movable, from the same addresses and the same bytes. */
  lemma MoveHead(ram: Ram, mrs: MrTable, dt: U32, dv: U64, st: U32, sv: U64, len: nat, n: nat)
    requires TableOk(mrs)
    requires Movable(ram, mrs, dt, dv, st, sv, len) && n < len
    ensures
      var d, s := MrPas(ram, mrs, dt, dv, len), MrPas(ram, mrs, st, sv, len);
      var ram1 := ram.(bytes := Scatter(ram.bytes, d[..n], Gather(ram.bytes, s)[..n]));
      && Movable(ram1, mrs, dt, Plus(dv, n), st, Plus(sv, n), len - n)
      && MrPas(ram1, mrs, dt, Plus(dv, n), len - n) == d[n..]
      && Gather(ram1.bytes, MrPas(ram1, mrs, st, Plus(sv, n), len - n)) == Gather(ram.bytes, s)[n..]
  {
    hide Scatter, Plus, SameWalks, TableOk;
    var d, s := MrPas(ram, mrs, dt, dv, len), MrPas(ram, mrs, st, sv, len);
    var data := Gather(ram.bytes, s);
    var ram1 := ram.(bytes := Scatter(ram.bytes, d[..n], data[..n]));
    TargetHead(ram, mrs, dt, dv, data, n);
    TablesSafeFewer(ram, mrs, st, sv, len, d, n);
    StoreKeepsPas(ram, mrs, st, sv, len, d[..n], data[..n]);
    SourceRest(ram, ram1, mrs, st, sv, len, n, d);
    GatherUntouched(ram.bytes, d[..n], data[..n], s);
    assert Gather(ram1.bytes, s[n..]) == Gather(ram1.bytes, s)[n..];
  }

  lemma SourceRest(ram: Ram, ram1: Ram, mrs: MrTable, st: U32, sv: U64, len: nat, n: nat, d: seq<nat>)
    requires Mapped(ram, mrs, st, sv, len) && n < len <= |d| && MrTablesSafe(ram, mrs, st, sv, len, d)
    requires SameWalks(mrs[st].mmu, ram, ram1, Addresses(sv, len))
    requires MrPas(ram1, mrs, st, sv, len) == MrPas(ram, mrs, st, sv, len)
    ensures Mapped(ram1, mrs, st, Plus(sv, n), len - n)
    ensures MrTablesSafe(ram1, mrs, st, Plus(sv, n), len - n, d[n..])
    ensures MrPas(ram1, mrs, st, Plus(sv, n), len - n) == MrPas(ram, mrs, st, sv, len)[n..]
  {
    assert Resident(ram1, MrPas(ram, mrs, st, sv, len));
    MappedCut(ram1, mrs, st, sv, len, n);
    MrPasCut(ram1, mrs, st, sv, len, n);
    assert MrTablesSafe(ram1, mrs, st, sv, len, d);
    TablesSafeCut(ram1, mrs, st, sv, len, n, d, n);
  }

  /** The functional copy, bounced 4 KB at a time, is the flat-memory move. */
  lemma {:induction false} CopyIsMove(ram: Ram, mrs: MrTable, dt: U32, dv: U64, st: U32, sv: U64, len: nat)
    requires TableOk(mrs)
    requires Movable(ram, mrs, dt, dv, st, sv, len)
    ensures CopyMr(ram, mrs, dt, dv, st, sv, len) == Written(Moved(ram, mrs, dt, dv, st, sv, len), true)
    decreases len
  {
    if len == 0 {
    } else {
      var n := Min(len, BOUNCE);
      var d, s := MrPas(ram, mrs, dt, dv, len), MrPas(ram, mrs, st, sv, len);
      var data := Gather(ram.bytes, s);
      MappedCut(ram, mrs, st, sv, len, n);
      MrPasCut(ram, mrs, st, sv, len, n);
      MappedRead(ram, mrs, st, sv, n);
      assert Gather(ram.bytes, s[..n]) == data[..n];
      TargetHead(ram, mrs, dt, dv, data, n);
      var ram1 := ram.(bytes := Scatter(ram.bytes, d[..n], data[..n]));
      ScatterCut(ram.bytes, d, data, n);
      if n < len {
        MoveHead(ram, mrs, dt, dv, st, sv, len, n);
        CopyIsMove(ram1, mrs, dt, Plus(dv, n), st, Plus(sv, n), len - n);
      } else {
        assert d[..n] == d && data[..n] == data;
      }
    }
  }

  /** The copy through the pipeline is the same move, so both leave the same guest memory. */
  lemma PipeCopyIsCopy(ram: Ram, hw: HbmWrite, mrs: MrTable, dt: U32, dv: U64, st: U32, sv: U64, len: nat)
    requires TableOk(mrs)
    requires HbmOk(hw) && len > 0 && Movable(ram, mrs, dt, dv, st, sv, len)
    ensures PipeCopy(ram, hw, mrs, dt, dv, st, sv, len) == Written(Moved(ram, mrs, dt, dv, st, sv, len), true)
    ensures PipeCopy(ram, hw, mrs, dt, dv, st, sv, len) == CopyMr(ram, mrs, dt, dv, st, sv, len)
  {
    MappedRead(ram, mrs, st, sv, len);
    RouteIsStore(ram, hw, mrs, Gather(ram.bytes, MrPas(ram, mrs, st, sv, len)), dt, dv);
    CopyIsMove(ram, mrs, dt, dv, st, sv, len);
  }
}
