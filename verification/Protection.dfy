/**
 Memory protection of registered regions: which accesses are refused, and which bytes an access
 that is not refused, or fails half-way, can change.
 */
module Protection {
  import opened Words
  import opened GuestMemory
  import opened PageTable
  import opened MrAccess
  import opened PipePacket
  import opened MrCopy

  // ---- refusal ----

  /** An access that the bounds do not allow is refused, and changes nothing. */
  lemma RefusedOutside(ram: Ram, mrs: MrTable, token: U32, va: U64, data: seq<Byte>)
    requires token in mrs ==> !Granted(mrs[token], va, |data|)
    ensures MrRead(ram, mrs, token, va, |data|) == None
    ensures MrWrite(ram, mrs, token, va, data) == Written(ram, false)
  {
    hide InMr, Granted;
    if token in mrs {
      TestIsGranted(mrs[token], va, |data|);
    }
  }

  /** The range and its offset in the region stay below 2^64. */
  predicate Straight(m: Mr, va: U64, len: nat) {
    va + len <= WORD64 && va + len < WORD64 + m.vaBase
  }

  /** Without wrap-around, what is allowed lies in the region. */
  lemma GrantedInside(m: Mr, va: U64, len: nat)
    requires Straight(m, va, len)
    ensures Granted(m, va, len) <==> m.vaBase <= va && va + len <= m.vaBase + m.len
    ensures Granted(m, va, len) <==> InBounds(m, va, len)
  {
  }

  /**
   With it, the test can pass for a range that is not: eight bytes at the top of the address space
   against a region of any length that begins at 0.
   */
  lemma WrappedRangeIsGranted(m: Mr)
    requires m.vaBase == 0 && m.len < WORD64 - 8
    ensures Granted(m, WORD64 - 8, 8) && m.vaBase + m.len < WORD64 - 8
  {
  }

  /** A registration gives its token these bounds and this page table, and leaves every other token. */
  lemma RegisterDefines(mrs: MrTable, token: U32, vaBase: U64, len: U64, ttbr0: U64, other: U32, ram: Ram, va: U64)
    ensures var mrs' := Register(mrs, token, vaBase, len, ttbr0);
      && token in mrs' && mrs'[token].vaBase == vaBase && mrs'[token].len == len
      && mrs'[token].mmu.walk(ram, va) == Walk(ram, ttbr0, va)
      && (other != token ==> (other in mrs' <==> other in mrs) && (other in mrs ==> mrs'[other] == mrs[other]))
  {
  }

  // ---- what a write can change ----

  /** Outside these addresses memory is as it was. */
  ghost predicate Only(ram: Ram, ram': Ram, pas: seq<nat>) {
    ram'.ranges == ram.ranges && forall a: nat :: a !in pas ==> Peek(ram'.bytes, a) == Peek(ram.bytes, a)
  }

  lemma OnlyKeepsWalks(m: Mmu, ram: Ram, ram': Ram, vas: seq<U64>, pas: seq<nat>)
    requires Regime(m) && Only(ram, ram', pas) && TablesSafe(m, ram, vas, pas)
    ensures SameWalks(m, ram, ram', vas)
  {
    forall i | 0 <= i < |vas| ensures AgreeOn(ram, ram', m.descriptors(ram, vas[i])) {
      assert forall a :: a in m.descriptors(ram, vas[i]) ==> a !in pas;
    }
  }

  /** A write that spares its own descriptors changes nothing but its addresses, even if it fails half-way. */
  lemma {:induction false} PiecesOnly(m: Mmu, ram: Ram, ps: seq<Piece>, data: seq<Byte>)
    requires Regime(m) && PiecesOk(ps) && |data| == Total(ps)
    requires TablesSafe(m, ram, Flatten(ps), Pas(m, ram, Flatten(ps)))
    ensures Only(ram, WritePieces(m, ram, ps, data).ram, Pas(m, ram, Flatten(ps)))
    decreases |ps|
  {
    if ps != [] && m.walk(ram, ps[0].va) != 0 && Covered(ram.ranges, m.walk(ram, ps[0].va), ps[0].len) {
      var pa, n := m.walk(ram, ps[0].va), ps[0].len;
      var v, w := Addresses(ps[0].va, n), Flatten(ps[1..]);
      assert Pas(m, ram, v) == Span(pa, n);
      WriteFirstPiece(m, ram, v, w, data[..n]);
      var ram1 := DmaWrite(ram, pa, data[..n]).ram;
      PiecesOnly(m, ram1, ps[1..], data[n..]);
      PasAppend(m, ram, v, w);
      hide WritePieces, Flatten, TablesSafe;
      var pas, ram' := Span(pa, n) + Pas(m, ram, w), WritePieces(m, ram1, ps[1..], data[n..]).ram;
      forall a: nat | a !in pas ensures Peek(ram'.bytes, a) == Peek(ram.bytes, a) {
        ScatterOutside(ram.bytes, Span(pa, n), data[..n], a);
      }
    }
  }

  /** The i-th byte of the range is allowed by the region. */
  predicate Allowed(m: Mr, va: U64, len: nat, i: nat) {
    Straight(m, va, len) ==> m.vaBase <= va + i < m.vaBase + m.len
  }

  ghost predicate Reached(ram: Ram, mrs: MrTable, token: U32, va: U64, len: nat, a: nat) {
    token in mrs && exists i :: 0 <= i < len && MrPas(ram, mrs, token, va, len)[i] == a && Allowed(mrs[token], va, len, i)
  }

  /** Every byte that differs is at the translation of an address of the range that lies in its region. */
  ghost predicate Confined(ram: Ram, ram': Ram, mrs: MrTable, token: U32, va: U64, len: nat) {
    && ram'.ranges == ram.ranges
    && forall a: nat :: Reached(ram, mrs, token, va, len, a) || Peek(ram'.bytes, a) == Peek(ram.bytes, a)
  }

  /** The range holds none of its own descriptors. */
  ghost predicate Spares(ram: Ram, mrs: MrTable, token: U32, va: U64, len: nat) {
    token in mrs ==> MrTablesSafe(ram, mrs, token, va, len, MrPas(ram, mrs, token, va, len))
  }

  lemma ConfinedOnly(ram: Ram, ram': Ram, mrs: MrTable, token: U32, va: U64, len: nat)
    requires token in mrs && Confined(ram, ram', mrs, token, va, len)
    ensures Only(ram, ram', MrPas(ram, mrs, token, va, len))
  {
    hide MrPas;
  }

  lemma ConfinedWalks(ram: Ram, ram': Ram, mrs: MrTable, token: U32, va: U64, len: nat)
    requires TableOk(mrs) && token in mrs && Spares(ram, mrs, token, va, len) && Confined(ram, ram', mrs, token, va, len)
    ensures SameWalks(mrs[token].mmu, ram, ram', Addresses(va, len))
    ensures MrPas(ram', mrs, token, va, len) == MrPas(ram, mrs, token, va, len)
    ensures Spares(ram', mrs, token, va, len)
  {
    hide Confined;
    ConfinedOnly(ram, ram', mrs, token, va, len);
    OnlyKeepsWalks(mrs[token].mmu, ram, ram', Addresses(va, len), MrPas(ram, mrs, token, va, len));
    SameWalksSamePas(mrs[token].mmu, ram, ram', Addresses(va, len));
  }

  lemma WriteOnly(ram: Ram, mrs: MrTable, token: U32, va: U64, data: seq<Byte>)
    requires TableOk(mrs) && token in mrs && Spares(ram, mrs, token, va, |data|)
    ensures Only(ram, MrWrite(ram, mrs, token, va, data).ram, MrPas(ram, mrs, token, va, |data|))
  {
    PiecesAreTheRange(va, |data|);
    PiecesOnly(mrs[token].mmu, ram, Pieces(va, |data|), data);
  }

  /** A part of a range that spares its descriptors does so too. */
  lemma PartSpares(ram: Ram, mrs: MrTable, token: U32, va: U64, len: nat, n: nat, k: nat)
    requires token in mrs && Spares(ram, mrs, token, va, len) && n + k <= len
    ensures Spares(ram, mrs, token, Plus(va, n), k)
    ensures MrPas(ram, mrs, token, Plus(va, n), k) == MrPas(ram, mrs, token, va, len)[n..n + k]
  {
    hide MrTablesSafe, MrPas;
    var pas := MrPas(ram, mrs, token, va, len);
    MrPasCut(ram, mrs, token, va, len, n);
    MrPasCut(ram, mrs, token, Plus(va, n), len - n, k);
    TablesSafeCut(ram, mrs, token, va, len, n, pas, n);
    TablesSafeCut(ram, mrs, token, Plus(va, n), len - n, k, pas[n..], k);
    assert pas[n..][..k] == pas[n..n + k];
  }

  lemma PartOnly(ram0: Ram, ram: Ram, mrs: MrTable, token: U32, va: U64, len: nat, n: nat, data: seq<Byte>)
    requires TableOk(mrs) && token in mrs && Spares(ram0, mrs, token, va, len) && Confined(ram0, ram, mrs, token, va, len)
    requires n + |data| <= len
    ensures Only(ram, MrWrite(ram, mrs, token, Plus(va, n), data).ram, MrPas(ram0, mrs, token, va, len)[n..n + |data|])
  {
    hide Confined, MrPas, Spares, MrWrite, Only, TableOk;
    ConfinedWalks(ram0, ram, mrs, token, va, len);
    PartSpares(ram, mrs, token, va, len, n, |data|);
    WriteOnly(ram, mrs, token, Plus(va, n), data);
  }

  /** A write to a part of the range, in a memory that the range's earlier writes have changed. */
  lemma PartConfined(ram0: Ram, ram: Ram, mrs: MrTable, token: U32, va: U64, len: nat, n: nat, data: seq<Byte>)
    requires TableOk(mrs) && Spares(ram0, mrs, token, va, len) && Confined(ram0, ram, mrs, token, va, len)
    requires n + |data| <= len
    ensures Confined(ram0, MrWrite(ram, mrs, token, Plus(va, n), data).ram, mrs, token, va, len)
  {
    if token in mrs && Granted(mrs[token], Plus(va, n), |data|) && data != [] {
      PartOnly(ram0, ram, mrs, token, va, len, n, data);
      PartAllowed(mrs[token], va, len, n, |data|);
      hide Granted, MrPas, MrWrite, Allowed, Straight, MrTablesSafe;
      var ram' := MrWrite(ram, mrs, token, Plus(va, n), data).ram;
      var pas := MrPas(ram0, mrs, token, va, len);
      forall a: nat ensures Reached(ram0, mrs, token, va, len, a) || Peek(ram'.bytes, a) == Peek(ram0.bytes, a) {
        if a in pas[n..n + |data|] {
          var i :| 0 <= i < |data| && pas[n..n + |data|][i] == a;
          assert pas[n + i] == a && Allowed(mrs[token], va, len, n + i);
        }
      }
    } else if data == [] {
    } else {
      RefusedOutside(ram, mrs, token, Plus(va, n), data);
    }
  }

  lemma PartAllowed(m: Mr, va: U64, len: nat, n: nat, k: nat)
    requires Granted(m, Plus(va, n), k) && n + k <= len && k > 0
    ensures forall i: nat :: n <= i < n + k ==> Allowed(m, va, len, i)
  {
  }

  // ---- transfers of many writes ----

  lemma ConfinedSelf(ram: Ram, mrs: MrTable, token: U32, va: U64, len: nat)
    ensures Confined(ram, ram, mrs, token, va, len)
  {
  }

  /** Packets routed to a part of the range. */
  lemma {:induction false} RouteConfined(ram0: Ram, ram: Ram, hw: HbmWrite, mrs: MrTable, data: seq<Byte>,
                                         token: U32, va: U64, len: nat, n: nat)
    requires TableOk(mrs) && Spares(ram0, mrs, token, va, len) && Confined(ram0, ram, mrs, token, va, len)
    requires HbmOk(hw) && n + |data| <= len
    ensures Confined(ram0, RouteFrom(ram, hw, mrs, data, token, Plus(va, n)).ram, mrs, token, va, len)
    decreases |data|
  {
    hide TableOk, Spares, Confined, MrWrite, Plus;
    if data == [] {
    } else {
      hide RouteFrom;
      var k := Min(|data|, PACKET);
      var landed := RouteStep(ram, hw, mrs, data, token, Plus(va, n));
      PartConfined(ram0, ram, mrs, token, va, len, n, data[..k]);
      var w := MrWrite(ram, mrs, token, Plus(va, n), data[..k]);
      PlusPlus(va, n, k);
      RouteConfined(ram0, w.ram, landed, mrs, data[k..], token, va, len, n + k);
    }
  }

  /** A copy, from anywhere, to a part of the range. */
  lemma {:induction false} CopyConfined(ram0: Ram, ram: Ram, mrs: MrTable, token: U32, va: U64, len: nat, n: nat,
                                        st: U32, sv: U64, left: nat)
    requires TableOk(mrs) && Spares(ram0, mrs, token, va, len) && Confined(ram0, ram, mrs, token, va, len)
    requires n + left <= len
    ensures Confined(ram0, CopyMr(ram, mrs, token, Plus(va, n), st, sv, left).ram, mrs, token, va, len)
    decreases left
  {
    hide TableOk, Spares, Confined, MrRead, MrWrite, Plus;
    if left == 0 {
    } else {
      var k := Min(left, BOUNCE);
      match MrRead(ram, mrs, st, sv, k)
      case None =>
      case Some(buf) =>
        PartConfined(ram0, ram, mrs, token, va, len, n, buf);
        var w := MrWrite(ram, mrs, token, Plus(va, n), buf);
        PlusPlus(va, n, k);
        CopyConfined(ram0, w.ram, mrs, token, va, len, n + k, st, Plus(sv, k), left - k);
    }
  }

  lemma PlusZero(va: U64)
    ensures Plus(va, 0) == va
  {
  }

  lemma WriteConfined(ram: Ram, mrs: MrTable, token: U32, va: U64, data: seq<Byte>)
    requires TableOk(mrs) && Spares(ram, mrs, token, va, |data|)
    ensures Confined(ram, MrWrite(ram, mrs, token, va, data).ram, mrs, token, va, |data|)
  {
    hide Plus, Confined, Spares, MrWrite;
    PlusZero(va);
    ConfinedSelf(ram, mrs, token, va, |data|);
    PartConfined(ram, ram, mrs, token, va, |data|, 0, data);
  }

  // ---- when they succeed ----

  lemma PartWalks(ram0: Ram, ram: Ram, mrs: MrTable, token: U32, va: U64, len: nat, n: nat, k: nat)
    requires token in mrs && n + k <= len && SameWalks(mrs[token].mmu, ram0, ram, Addresses(va, len))
    ensures MrPas(ram, mrs, token, Plus(va, n), k) == MrPas(ram0, mrs, token, Plus(va, n), k)
  {
    hide Plus;
    var m := mrs[token].mmu;
    AddressesCut(va, len, n);
    SameWalksPart(m, ram0, ram, Addresses(va, n), Addresses(Plus(va, n), len - n));
    AddressesCut(Plus(va, n), len - n, k);
    SameWalksPart(m, ram0, ram, Addresses(Plus(va, n), k), Addresses(Plus(Plus(va, n), k), len - n - k));
    SameWalksSamePas(m, ram0, ram, Addresses(Plus(va, n), k));
  }

  lemma PartBounds(m: Mr, va: U64, len: nat, n: nat, k: nat)
    requires Straight(m, va, len) && n + k <= len && k > 0
    ensures Plus(va, n) == va + n && Straight(m, va + n, k)
    ensures Granted(m, Plus(va, n), k) <==> InBounds(m, Plus(va, n), k)
  {
  }

  /** A part of a range that neither wraps nor changes its walks is read exactly if it is mapped. */
  lemma PartReads(ram0: Ram, ram: Ram, mrs: MrTable, token: U32, va: U64, len: nat, n: nat, k: nat)
    requires TableOk(mrs) && PageAligned(ram0.ranges) && token in mrs && Straight(mrs[token], va, len)
    requires SameWalks(mrs[token].mmu, ram0, ram, Addresses(va, len)) && n + k <= len && k > 0
    ensures MrRead(ram, mrs, token, Plus(va, n), k).Some? <==> Mapped(ram0, mrs, token, Plus(va, n), k)
  {
    PartWalks(ram0, ram, mrs, token, va, len, n, k);
    PartBounds(mrs[token], va, len, n, k);
    hide MrPas, MrRead, Granted, InBounds, Plus, Straight;
    MrReadSucceedsExactly(ram, mrs, token, Plus(va, n), k);
  }

  /** And written exactly if it is. */
  lemma PartWrites(ram0: Ram, ram: Ram, mrs: MrTable, token: U32, va: U64, len: nat, n: nat, data: seq<Byte>)
    requires TableOk(mrs) && PageAligned(ram0.ranges) && token in mrs && Straight(mrs[token], va, len)
    requires Spares(ram0, mrs, token, va, len) && Confined(ram0, ram, mrs, token, va, len)
    requires n + |data| <= len && data != []
    ensures MrWrite(ram, mrs, token, Plus(va, n), data).ok <==> Mapped(ram0, mrs, token, Plus(va, n), |data|)
  {
    hide Confined, MrPas, MrRead, MrWrite, Straight, TableOk, Mapped, Plus, SameWalks;
    ConfinedWalks(ram0, ram, mrs, token, va, len);
    PartReads(ram0, ram, mrs, token, va, len, n, |data|);
    PartSpares(ram, mrs, token, va, len, n, |data|);
    MrWriteIsBytewise(ram, mrs, token, Plus(va, n), data);
  }

  lemma ResidentParts(ram: Ram, pas: seq<nat>, k: nat)
    requires k <= |pas|
    ensures Resident(ram, pas) <==> Resident(ram, pas[..k]) && Resident(ram, pas[k..])
  {
    hide Covered;
    assert forall i :: k <= i < |pas| ==> pas[i] == pas[k..][i - k];
    assert forall i :: 0 <= i < k ==> pas[i] == pas[..k][i];
  }

  lemma BoundsParts(m: Mr, va: U64, len: nat, n: nat, k: nat, left: nat)
    requires Straight(m, va, len) && n + left <= len && 0 < k < left
    ensures InBounds(m, Plus(va, n), left) <==> InBounds(m, Plus(va, n), k) && InBounds(m, Plus(va, n + k), left - k)
    ensures Plus(Plus(va, n), k) == Plus(va, n + k)
  {
    hide Granted, Plus;
    PartBounds(m, va, len, n, left);
    PartBounds(m, va, len, n + k, left - k);
    PlusPlus(va, n, k);
  }

  /** A range is mapped exactly if its two parts are. */
  lemma MappedParts(ram: Ram, mrs: MrTable, token: U32, va: U64, len: nat, n: nat, k: nat, left: nat)
    requires token in mrs && Straight(mrs[token], va, len) && n + left <= len && 0 < k < left
    ensures Mapped(ram, mrs, token, Plus(va, n), left)
      <==> Mapped(ram, mrs, token, Plus(va, n), k) && Mapped(ram, mrs, token, Plus(va, n + k), left - k)
  {
    hide MrPas, Plus, InBounds, Resident, Straight;
    BoundsParts(mrs[token], va, len, n, k, left);
    MrPasCut(ram, mrs, token, Plus(va, n), left, k);
    ResidentParts(ram, MrPas(ram, mrs, token, Plus(va, n), left), k);
  }

  lemma {:induction false} RouteSucceeds(ram0: Ram, ram: Ram, hw: HbmWrite, mrs: MrTable, data: seq<Byte>,
                                         token: U32, va: U64, len: nat, n: nat)
    requires TableOk(mrs) && PageAligned(ram0.ranges) && token in mrs && Straight(mrs[token], va, len)
    requires Spares(ram0, mrs, token, va, len) && Confined(ram0, ram, mrs, token, va, len)
    requires HbmOk(hw) && n + |data| <= len && data != []
    ensures RouteFrom(ram, hw, mrs, data, token, Plus(va, n)).ok <==> Mapped(ram0, mrs, token, Plus(va, n), |data|)
    decreases |data|
  {
    hide TableOk, Spares, Confined, MrWrite, Plus, RouteFrom, Straight, Mapped;
    var k := Min(|data|, PACKET);
    var landed := RouteStep(ram, hw, mrs, data, token, Plus(va, n));
    PartConfined(ram0, ram, mrs, token, va, len, n, data[..k]);
    PartWrites(ram0, ram, mrs, token, va, len, n, data[..k]);
    var w := MrWrite(ram, mrs, token, Plus(va, n), data[..k]);
    PlusPlus(va, n, k);
    if k < |data| {
      MappedParts(ram0, mrs, token, va, len, n, k, |data|);
      if w.ok {
        RouteSucceeds(ram0, w.ram, landed, mrs, data[k..], token, va, len, n + k);
      }
    } else {
      assert data[k..] == [];
      RouteNothing(w.ram, landed, mrs, token, Plus(va, n + k));
    }
  }

  /** Neither range wraps, and the destination holds no descriptor of either. */
  ghost predicate Apart(ram: Ram, mrs: MrTable, dt: U32, dv: U64, st: U32, sv: U64, len: nat) {
    && PageAligned(ram.ranges) && dt in mrs && st in mrs && Straight(mrs[dt], dv, len) && Straight(mrs[st], sv, len)
    && Spares(ram, mrs, dt, dv, len) && MrTablesSafe(ram, mrs, st, sv, len, MrPas(ram, mrs, dt, dv, len))
  }

  lemma SourceWalks(ram0: Ram, ram: Ram, mrs: MrTable, dt: U32, dv: U64, st: U32, sv: U64, len: nat)
    requires TableOk(mrs) && Apart(ram0, mrs, dt, dv, st, sv, len) && Confined(ram0, ram, mrs, dt, dv, len)
    ensures SameWalks(mrs[st].mmu, ram0, ram, Addresses(sv, len))
  {
    hide Confined, Straight, Spares;
    ConfinedOnly(ram0, ram, mrs, dt, dv, len);
    OnlyKeepsWalks(mrs[st].mmu, ram0, ram, Addresses(sv, len), MrPas(ram0, mrs, dt, dv, len));
  }

  /** The functional copy succeeds exactly if both ranges are mapped. */
  lemma {:induction false} CopySucceeds(ram0: Ram, ram: Ram, mrs: MrTable, dt: U32, dv: U64, st: U32, sv: U64,
                                        len: nat, n: nat)
    requires TableOk(mrs) && Apart(ram0, mrs, dt, dv, st, sv, len) && Confined(ram0, ram, mrs, dt, dv, len) && n < len
    ensures CopyMr(ram, mrs, dt, Plus(dv, n), st, Plus(sv, n), len - n).ok
      <==> Mapped(ram0, mrs, dt, Plus(dv, n), len - n) && Mapped(ram0, mrs, st, Plus(sv, n), len - n)
    decreases len - n
  {
    hide TableOk, Spares, Confined, MrRead, MrWrite, Plus, Straight, Mapped, MrTablesSafe, SameWalks;
    var left := len - n;
    var k := Min(left, BOUNCE);
    SourceWalks(ram0, ram, mrs, dt, dv, st, sv, len);
    PartReads(ram0, ram, mrs, st, sv, len, n, k);
    if k < left {
      MappedParts(ram0, mrs, dt, dv, len, n, k, left);
      MappedParts(ram0, mrs, st, sv, len, n, k, left);
    }
    match MrRead(ram, mrs, st, Plus(sv, n), k)
    case None =>
    case Some(buf) =>
      PartConfined(ram0, ram, mrs, dt, dv, len, n, buf);
      PartWrites(ram0, ram, mrs, dt, dv, len, n, buf);
      var w := MrWrite(ram, mrs, dt, Plus(dv, n), buf);
      PlusPlus(dv, n, k);
      PlusPlus(sv, n, k);
      if w.ok && k < left {
        CopySucceeds(ram0, w.ram, mrs, dt, dv, st, sv, len, n + k);
      }
  }
}
