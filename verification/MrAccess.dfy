/**
 Access to a registered memory region (ou_dma_mr): bounds check against the MR table, then
 one DMA per 4 KB page, each translated by its own walk. The reference is flat memory:
 the list of physical addresses of the bytes, read by Gather and written by Scatter.
 */
module MrAccess {
  import opened Words
  import opened GuestMemory
  import opened PageTable

  /** A registered region: its bounds and the address space its pages are translated in. */
  datatype Mr = Mr(vaBase: U64, len: U64, mmu: Mmu)

  type MrTable = map<U32, Mr>

  /** Registration records TTBR0, so every region's address space is a page table. */
  ghost predicate TableOk(mrs: MrTable) {
    forall t :: t in mrs ==> Regime(mrs[t].mmu)
  }

  function Register(mrs: MrTable, token: U32, vaBase: U64, len: U64, ttbr0: U64): MrTable {
    mrs[token := Mr(vaBase, len, Stage1(ttbr0))]
  }

  lemma RegisterKeepsTableOk(mrs: MrTable, token: U32, vaBase: U64, len: U64, ttbr0: U64)
    requires TableOk(mrs)
    ensures TableOk(Register(mrs, token, vaBase, len, ttbr0))
  {
    Stage1IsRegime(ttbr0);
  }

  function Min(a: nat, b: nat): nat { if a < b then a else b }

  /** The part of a transfer that lies in one page. */
  datatype Piece = Piece(va: U64, len: nat)

  function Chunk(va: U64, len: nat): (n: nat)
    ensures n <= len && (len > 0 ==> n > 0) && WithinPage(va, n)
  {
    Min(len, PAGE - va % PAGE)
  }

  /** [va, va + len) cut at page boundaries, as the loop of the source does. */
  function Pieces(va: U64, len: nat): (r: seq<Piece>)
    ensures forall i :: 0 <= i < |r| ==> r[i].len > 0 && WithinPage(r[i].va, r[i].len)
    ensures Total(r) == len
    decreases len
  {
    if len == 0 then []
    else
      var n := Chunk(va, len);
      [Piece(va, n)] + Pieces(Plus(va, n), len - n)
  }

  function Total(ps: seq<Piece>): nat {
    if ps == [] then 0 else ps[0].len + Total(ps[1..])
  }

  /** The bounds test of the source, with its 64-bit addition. */
  predicate InMr(m: Mr, va: U64, len: nat) {
    m.vaBase <= va && (va - m.vaBase + len) % WORD64 <= m.len
  }

  function ReadPieces(m: Mmu, ram: Ram, ps: seq<Piece>): (r: Option<seq<Byte>>)
    ensures r.Some? ==> |r.value| == Total(ps)
  {
    if ps == [] then Some([])
    else
      var pa := m.walk(ram, ps[0].va);
      if pa == 0 then None
      else match DmaRead(ram, pa, ps[0].len)
        case None => None
        case Some(head) =>
          match ReadPieces(m, ram, ps[1..])
          case None => None
          case Some(tail) => Some(head + tail)
  }

  /** A write that fails part-way leaves the pages before the failure written. */
  function WritePieces(m: Mmu, ram: Ram, ps: seq<Piece>, data: seq<Byte>): (w: Written)
    requires |data| == Total(ps)
    ensures w.ram.ranges == ram.ranges
    decreases |ps|
  {
    if ps == [] then Written(ram, true)
    else
      var pa, n := m.walk(ram, ps[0].va), ps[0].len;
      if pa == 0 then Written(ram, false)
      else
        var w := DmaWrite(ram, pa, data[..n]);
        if !w.ok then w
        else WritePieces(m, w.ram, ps[1..], data[n..])
  }

  function MrRead(ram: Ram, mrs: MrTable, token: U32, va: U64, len: nat): (r: Option<seq<Byte>>)
    ensures r.Some? ==> |r.value| == len
  {
    if token !in mrs || !InMr(mrs[token], va, len) then None
    else ReadPieces(mrs[token].mmu, ram, Pieces(va, len))
  }

  function MrWrite(ram: Ram, mrs: MrTable, token: U32, va: U64, data: seq<Byte>): (w: Written)
    ensures w.ram.ranges == ram.ranges
  {
    if token !in mrs || !InMr(mrs[token], va, |data|) then Written(ram, false)
    else WritePieces(mrs[token].mmu, ram, Pieces(va, |data|), data)
  }

  // ---- the flat-memory reference ----

  ghost predicate PiecesOk(ps: seq<Piece>) {
    forall i :: 0 <= i < |ps| ==> ps[i].len > 0 && WithinPage(ps[i].va, ps[i].len)
  }

  /** The virtual addresses of the bytes of a list of pieces. */
  function Flatten(ps: seq<Piece>): (r: seq<U64>)
    ensures |r| == Total(ps)
  {
    if ps == [] then [] else Addresses(ps[0].va, ps[0].len) + Flatten(ps[1..])
  }

  /** Every byte has a translation other than 0, in backed memory. */
  ghost predicate Resident(ram: Ram, pas: seq<nat>) {
    forall i :: 0 <= i < |pas| ==> pas[i] != 0 && Covered(ram.ranges, pas[i], 1)
  }

  /** Every piece has a translation other than 0 and lies in one backed range. */
  ghost predicate PiecesBacked(m: Mmu, ram: Ram, ps: seq<Piece>) {
    forall i :: 0 <= i < |ps| ==>
      m.walk(ram, ps[i].va) != 0 && ps[i].len > 0 && Covered(ram.ranges, m.walk(ram, ps[i].va), ps[i].len)
  }

  /** The read succeeds exactly when each of its pieces can be read. */
  lemma {:induction false} ReadPiecesExactly(m: Mmu, ram: Ram, ps: seq<Piece>)
    ensures ReadPieces(m, ram, ps).Some? <==> PiecesBacked(m, ram, ps)
    decreases |ps|
  {
    hide Covered;
    if ps == [] {
    } else {
      ReadPiecesExactly(m, ram, ps[1..]);
      assert PiecesBacked(m, ram, ps) ==> PiecesBacked(m, ram, ps[1..]) by {
        assert forall i :: 0 <= i < |ps| - 1 ==> ps[1..][i] == ps[i + 1];
      }
      if ReadPieces(m, ram, ps).Some? {
        forall i | 0 <= i < |ps|
          ensures m.walk(ram, ps[i].va) != 0 && ps[i].len > 0 && Covered(ram.ranges, m.walk(ram, ps[i].va), ps[i].len)
        {
          if i > 0 {
            assert ps[i] == ps[1..][i - 1];
          }
        }
      }
    }
  }

  /** Backing-store ranges begin and end on page boundaries. */
  ghost predicate PageAligned(ranges: seq<Range>) {
    forall i :: 0 <= i < |ranges| ==> ranges[i].start % PAGE == 0 && ranges[i].size % PAGE == 0
  }

  /** No address of pas holds a descriptor that the walk of an address of vas reads. */
  ghost predicate TablesSafe(m: Mmu, ram: Ram, vas: seq<U64>, pas: seq<nat>) {
    forall i, j :: 0 <= i < |vas| && 0 <= j < |pas| ==> pas[j] !in m.descriptors(ram, vas[i])
  }

  /** ram' has the same layout and gives every address of vas the same walk. */
  ghost predicate SameWalks(m: Mmu, ram: Ram, ram': Ram, vas: seq<U64>) {
    && ram'.ranges == ram.ranges
    && forall i :: 0 <= i < |vas| ==>
        m.walk(ram', vas[i]) == m.walk(ram, vas[i]) && m.descriptors(ram', vas[i]) == m.descriptors(ram, vas[i])
  }

  lemma PlusPlus(va: U64, n: nat, i: nat)
    ensures Plus(Plus(va, n), i) == Plus(va, n + i)
  {
  }

  lemma AddressesCut(va: U64, len: nat, n: nat)
    requires n <= len
    ensures Addresses(va, len) == Addresses(va, n) + Addresses(Plus(va, n), len - n)
  {
    forall i | 0 <= i < len - n ensures Plus(va, n + i) == Plus(Plus(va, n), i) {
      PlusPlus(va, n, i);
    }
  }

  /** The pieces are the range: same bytes, same order. */
  lemma {:induction false} PiecesAreTheRange(va: U64, len: nat)
    ensures Flatten(Pieces(va, len)) == Addresses(va, len)
    decreases len
  {
    if len == 0 {
    } else {
      var n := Chunk(va, len);
      PiecesAreTheRange(Plus(va, n), len - n);
      AddressesCut(va, len, n);
      assert Pieces(va, len)[1..] == Pieces(Plus(va, n), len - n);
    }
  }

  lemma PasAppend(m: Mmu, ram: Ram, v: seq<U64>, w: seq<U64>)
    ensures Pas(m, ram, v + w) == Pas(m, ram, v) + Pas(m, ram, w)
  {
  }

  lemma GatherAppend(bytes: map<nat, Byte>, p: seq<nat>, q: seq<nat>)
    ensures Gather(bytes, p + q) == Gather(bytes, p) + Gather(bytes, q)
  {
  }

  lemma CoveredSpan(ram: Ram, pa: nat, n: nat)
    requires pa != 0 && Covered(ram.ranges, pa, n)
    ensures Resident(ram, Span(pa, n))
  {
    var r :| 0 <= r < |ram.ranges| && Fits(ram.ranges[r], pa, n);
    forall i | 0 <= i < n ensures Covered(ram.ranges, Span(pa, n)[i], 1) {
      assert Fits(ram.ranges[r], pa + i, 1);
    }
  }

  lemma CoveredPage(ranges: seq<Range>, pa: nat, n: nat)
    requires PageAligned(ranges) && Covered(ranges, pa, 1) && pa % PAGE + n <= PAGE
    ensures Covered(ranges, pa, n)
  {
    var r :| 0 <= r < |ranges| && Fits(ranges[r], pa, 1);
    AlignedFit(pa, ranges[r].start, ranges[r].size, n);
    assert Fits(ranges[r], pa, n);
  }

  lemma AlignedFit(pa: nat, start: nat, size: nat, n: nat)
    requires start % PAGE == 0 && size % PAGE == 0 && start <= pa < start + size && pa % PAGE + n <= PAGE
    ensures pa - start + n <= size
  {
    var page, first, pages := pa / PAGE, start / PAGE, size / PAGE;
    assert pa == PAGE * page + pa % PAGE && start == PAGE * first && size == PAGE * pages;
    assert page < first + pages;
  }

  /** A successful page-chunked read returns, for each byte, what is at its own walk. */
  lemma {:induction false} ReadIsBytewise(m: Mmu, ram: Ram, ps: seq<Piece>)
    requires Regime(m) && PiecesOk(ps) && ReadPieces(m, ram, ps).Some?
    ensures ReadPieces(m, ram, ps).value == Gather(ram.bytes, Pas(m, ram, Flatten(ps)))
    ensures Resident(ram, Pas(m, ram, Flatten(ps)))
  {
    if ps == [] {
    } else {
      var pa, n := m.walk(ram, ps[0].va), ps[0].len;
      var v, w := Addresses(ps[0].va, n), Flatten(ps[1..]);
      CoveredSpan(ram, pa, n);
      ReadIsBytewise(m, ram, ps[1..]);
      PasAppend(m, ram, v, w);
      GatherAppend(ram.bytes, Span(pa, n), Pas(m, ram, w));
    }
  }

  /** With page-aligned memory the read succeeds when every byte is resident. */
  lemma {:induction false} ReadSucceeds(m: Mmu, ram: Ram, ps: seq<Piece>)
    requires Regime(m) && PiecesOk(ps)
    requires PageAligned(ram.ranges) && Resident(ram, Pas(m, ram, Flatten(ps)))
    ensures ReadPieces(m, ram, ps).Some?
  {
    if ps == [] {
    } else {
      var va, n := ps[0].va, ps[0].len;
      var v, w := Addresses(va, n), Flatten(ps[1..]);
      PasAppend(m, ram, v, w);
      var pas := Pas(m, ram, Flatten(ps));
      assert Plus(va, 0) == va && v[0] == va && pas[0] == m.walk(ram, va);
      CoveredPage(ram.ranges, pas[0], n);
      assert Pas(m, ram, w) == pas[n..];
      ReadSucceeds(m, ram, ps[1..]);
    }
  }

  lemma StoreKeepsWalks(m: Mmu, ram: Ram, vas: seq<U64>, pas: seq<nat>, data: seq<Byte>)
    requires Regime(m) && |pas| == |data| && TablesSafe(m, ram, vas, pas)
    ensures SameWalks(m, ram, ram.(bytes := Scatter(ram.bytes, pas, data)), vas)
  {
    var ram' := ram.(bytes := Scatter(ram.bytes, pas, data));
    forall i | 0 <= i < |vas| ensures AgreeOn(ram, ram', m.descriptors(ram, vas[i])) {
      forall a | a in m.descriptors(ram, vas[i]) ensures Peek(ram'.bytes, a) == Peek(ram.bytes, a) {
        ScatterOutside(ram.bytes, pas, data, a);
      }
    }
  }

  lemma SameWalksSamePas(m: Mmu, ram: Ram, ram': Ram, vas: seq<U64>)
    requires SameWalks(m, ram, ram', vas)
    ensures Pas(m, ram', vas) == Pas(m, ram, vas)
  {
  }

  lemma SameWalksPart(m: Mmu, ram: Ram, ram': Ram, v: seq<U64>, w: seq<U64>)
    requires SameWalks(m, ram, ram', v + w)
    ensures SameWalks(m, ram, ram', v) && SameWalks(m, ram, ram', w)
  {
    assert forall i :: 0 <= i < |v| ==> v[i] == (v + w)[i];
    assert forall i :: 0 <= i < |w| ==> w[i] == (v + w)[|v| + i];
  }

  /** Whether a transfer succeeds depends on the walks alone. */
  lemma {:induction false} SameWalksSameSuccess(m: Mmu, ram: Ram, ram': Ram, ps: seq<Piece>)
    requires PiecesOk(ps) && SameWalks(m, ram, ram', Flatten(ps))
    ensures ReadPieces(m, ram', ps).Some? <==> ReadPieces(m, ram, ps).Some?
  {
    if ps == [] {
    } else {
      var v := Addresses(ps[0].va, ps[0].len);
      SameWalksPart(m, ram, ram', v, Flatten(ps[1..]));
      assert Plus(ps[0].va, 0) == ps[0].va && v[0] == ps[0].va;
      SameWalksSameSuccess(m, ram, ram', ps[1..]);
    }
  }

  lemma TablesSafePart(m: Mmu, ram: Ram, ram': Ram, v: seq<U64>, w: seq<U64>, p: seq<nat>, q: seq<nat>)
    requires TablesSafe(m, ram, v + w, p + q) && SameWalks(m, ram, ram', w)
    ensures TablesSafe(m, ram, w, p) && TablesSafe(m, ram', w, q)
  {
    forall i, j | 0 <= i < |w| && 0 <= j < |p| ensures p[j] !in m.descriptors(ram, w[i]) {
      assert (p + q)[j] !in m.descriptors(ram, (v + w)[|v| + i]);
    }
    forall i, j | 0 <= i < |w| && 0 <= j < |q| ensures q[j] !in m.descriptors(ram', w[i]) {
      assert (p + q)[|p| + j] !in m.descriptors(ram, (v + w)[|v| + i]);
    }
  }

  /** The first page of a write: the rest still walks as before, on addresses still safe. */
  lemma WriteFirstPiece(m: Mmu, ram: Ram, v: seq<U64>, w: seq<U64>, head: seq<Byte>)
    requires Regime(m) && |v| == |head|
    requires TablesSafe(m, ram, v + w, Pas(m, ram, v + w))
    ensures
      var ram1 := ram.(bytes := Scatter(ram.bytes, Pas(m, ram, v), head));
      && SameWalks(m, ram, ram1, w)
      && Pas(m, ram1, w) == Pas(m, ram, w)
      && TablesSafe(m, ram1, w, Pas(m, ram1, w))
  {
    var p, q := Pas(m, ram, v), Pas(m, ram, w);
    PasAppend(m, ram, v, w);
    var ram1 := ram.(bytes := Scatter(ram.bytes, p, head));
    TablesSafePart(m, ram, ram, v, w, p, q);
    StoreKeepsWalks(m, ram, w, p, head);
    SameWalksSamePas(m, ram, ram1, w);
    TablesSafePart(m, ram, ram1, v, w, p, q);
  }

  /** A page-chunked write is the byte-by-byte store, and succeeds exactly when the read would. */
  lemma {:induction false} WriteIsBytewise(m: Mmu, ram: Ram, ps: seq<Piece>, data: seq<Byte>)
    requires Regime(m) && PiecesOk(ps) && |data| == Total(ps)
    requires TablesSafe(m, ram, Flatten(ps), Pas(m, ram, Flatten(ps)))
    ensures WritePieces(m, ram, ps, data).ok <==> ReadPieces(m, ram, ps).Some?
    ensures WritePieces(m, ram, ps, data).ok ==>
      WritePieces(m, ram, ps, data).ram == ram.(bytes := Scatter(ram.bytes, Pas(m, ram, Flatten(ps)), data))
    decreases |ps|
  {
    if ps != [] && m.walk(ram, ps[0].va) != 0 && Covered(ram.ranges, m.walk(ram, ps[0].va), ps[0].len) {
      var pa, n := m.walk(ram, ps[0].va), ps[0].len;
      var v, w := Addresses(ps[0].va, n), Flatten(ps[1..]);
      assert Pas(m, ram, v) == Span(pa, n);
      WriteFirstPiece(m, ram, v, w, data[..n]);
      var ram1 := DmaWrite(ram, pa, data[..n]).ram;
      SameWalksSameSuccess(m, ram, ram1, ps[1..]);
      WriteIsBytewise(m, ram1, ps[1..], data[n..]);
      PasAppend(m, ram, v, w);
      ScatterAppend(ram.bytes, Span(pa, n), Pas(m, ram, w), data[..n], data[n..]);
      assert data[..n] + data[n..] == data;
    }
  }

  /** The two results for a contiguous range of virtual addresses. */
  lemma RangeRead(m: Mmu, ram: Ram, va: U64, len: nat)
    requires Regime(m) && ReadPieces(m, ram, Pieces(va, len)).Some?
    ensures ReadPieces(m, ram, Pieces(va, len)).value == Gather(ram.bytes, Pas(m, ram, Addresses(va, len)))
    ensures Resident(ram, Pas(m, ram, Addresses(va, len)))
  {
    PiecesAreTheRange(va, len);
    ReadIsBytewise(m, ram, Pieces(va, len));
  }

  lemma RangeWrite(m: Mmu, ram: Ram, va: U64, data: seq<Byte>, vas: seq<U64>)
    requires Regime(m) && vas == Addresses(va, |data|) && TablesSafe(m, ram, vas, Pas(m, ram, vas))
    ensures WritePieces(m, ram, Pieces(va, |data|), data).ok <==> ReadPieces(m, ram, Pieces(va, |data|)).Some?
    ensures WritePieces(m, ram, Pieces(va, |data|), data).ok ==>
      WritePieces(m, ram, Pieces(va, |data|), data).ram == ram.(bytes := Scatter(ram.bytes, Pas(m, ram, vas), data))
  {
    PiecesAreTheRange(va, |data|);
    WriteIsBytewise(m, ram, Pieces(va, |data|), data);
  }
}
