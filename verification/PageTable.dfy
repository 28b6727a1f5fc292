/**
 The walk of the guest's stage-1 translation table (ou_walk): 4 KB granule, 48-bit
 addresses, levels 0 to 3, block descriptors at levels 0 to 2. Where this departs from the
 architecture is the subject of `ArmWalk`. Bit masks and shifts of the source are written as
 division and remainder by powers of two.
 */
module PageTable {
  import opened Words
  import opened Division
  import opened GuestMemory

  const PAGE: nat := 4096

  /** Virtual addresses wrap at 64 bits. */
  function Plus(va: U64, n: nat): U64 { (va + n) % WORD64 }

  /** Physical addresses have 48 bits. */
  const PA_LIMIT: nat := 0x1_0000_0000_0000

  /** Bytes of virtual address space under one entry of a level-lvl table. */
  function Reach(lvl: nat): (r: nat)
    ensures r > 0
  {
    if lvl == 0 then 0x80_0000_0000 else if lvl == 1 then 0x4000_0000 else if lvl == 2 then 0x20_0000 else PAGE
  }

  function EntryPa(table: nat, va: nat, lvl: nat): nat {
    table + va / Reach(lvl) % 512 * 8
  }

  /** Bits 47:12 of a descriptor or of TTBR0, in place. */
  function AddressBits(e: nat): (r: nat)
    ensures r % PAGE == 0 && r + PAGE <= PA_LIMIT
  {
    e / PAGE % 0x10_0000_0000 * PAGE
  }

  /** An address inside a block. */
  function BlockPa(out: nat, va: nat, lvl: nat): nat {
    out / Reach(lvl) * Reach(lvl) + va % Reach(lvl)
  }

  /** The walk from a level-lvl table; None is every path on which the source returns 0. */
  function Descend(ram: Ram, table: nat, va: nat, lvl: nat): (r: Option<nat>)
    decreases 4 - lvl
  {
    if lvl >= 4 then None
    else match DmaRead(ram, EntryPa(table, va, lvl), 8)
      case None => None
      case Some(raw) =>
        var e := UnLe(raw);
        var out := AddressBits(e);
        if e % 2 == 0 then None
        else if lvl == 3 then Some(out + va % PAGE)
        else if e % 4 == 1 then Some(BlockPa(out, va, lvl))
        else Descend(ram, out, va, lvl + 1)
  }

  /** The physical bytes of the descriptors that walk reads. */
  function TableBytes(ram: Ram, table: nat, va: nat, lvl: nat): set<nat>
    decreases 4 - lvl
  {
    if lvl >= 4 then {}
    else
      var pa := EntryPa(table, va, lvl);
      var here := set a | a in Span(pa, 8);
      match DmaRead(ram, pa, 8)
      case None => here
      case Some(raw) =>
        var e := UnLe(raw);
        if e % 2 == 0 || lvl == 3 || e % 4 == 1 then here
        else here + TableBytes(ram, AddressBits(e), va, lvl + 1)
  }

  function Translate(ram: Ram, ttbr0: nat, va: nat): Option<nat> {
    Descend(ram, AddressBits(ttbr0), va, 0)
  }

  function WalkBytes(ram: Ram, ttbr0: nat, va: nat): set<nat> {
    TableBytes(ram, AddressBits(ttbr0), va, 0)
  }

  /** ou_walk's own result: physical address 0 also stands for "unmapped". */
  function Walk(ram: Ram, ttbr0: nat, va: nat): (pa: nat) {
    match Translate(ram, ttbr0, va)
    case None => 0
    case Some(pa) => pa
  }

  // ---- two addresses of one 4 KB page ----

  lemma SamePageIndex(va: nat, vb: nat, lvl: nat)
    requires lvl < 4 && va / PAGE == vb / PAGE
    ensures va / Reach(lvl) == vb / Reach(lvl)
    ensures va % Reach(lvl) - va % PAGE == vb % Reach(lvl) - vb % PAGE
  {
    var pages := if lvl == 0 then 0x800_0000 else if lvl == 1 then 0x4_0000 else if lvl == 2 then 512 else 1;
    assert PAGE * pages == Reach(lvl);
    DivDiv(va, PAGE, pages);
    DivDiv(vb, PAGE, pages);
  }

  /** A page is translated as a whole, whether by an L3 page or by an L0, L1 or L2 block. */
  lemma {:induction false} SamePage(ram: Ram, table: nat, va: nat, vb: nat, lvl: nat)
    requires va / PAGE == vb / PAGE
    ensures TableBytes(ram, table, va, lvl) == TableBytes(ram, table, vb, lvl)
    ensures Descend(ram, table, va, lvl).Some? <==> Descend(ram, table, vb, lvl).Some?
    ensures Descend(ram, table, va, lvl).Some? ==>
      Descend(ram, table, va, lvl).value - va % PAGE == Descend(ram, table, vb, lvl).value - vb % PAGE
    decreases 4 - lvl
  {
    if lvl >= 4 {
    } else {
      SamePageIndex(va, vb, lvl);
      var pa := EntryPa(table, va, lvl);
      match DmaRead(ram, pa, 8)
      case None =>
      case Some(raw) =>
        var e := UnLe(raw);
        if e % 2 != 0 && lvl != 3 && e % 4 != 1 {
          SamePage(ram, AddressBits(e), va, vb, lvl + 1);
        }
    }
  }

  lemma BlockBound(out: nat, va: nat, lvl: nat)
    requires lvl < 3 && out < PA_LIMIT
    ensures BlockPa(out, va, lvl) < PA_LIMIT && BlockPa(out, va, lvl) % PAGE == va % PAGE
  {
    if lvl == 0 {
      BlockArith(out, va, 0x800_0000, 512);
    } else if lvl == 1 {
      BlockArith(out, va, 0x4_0000, 0x4_0000);
    } else {
      BlockArith(out, va, 512, 0x800_0000);
    }
  }

  /** A block of m pages, k of which make up the physical address space. */
  lemma BlockArith(out: nat, va: nat, m: nat, k: nat)
    requires m > 0 && PAGE * m * k == PA_LIMIT && out < PA_LIMIT
    ensures var r := PAGE * m; r > 0 && out / r * r + va % r < PA_LIMIT && (out / r * r + va % r) % PAGE == va % PAGE
  {
    var r := PAGE * m;
    var q, t := Divided(out, r);
    var q2, s := Divided(va, r);
    BelowMultiple(q, r, k, out);
    SameOffset(q, m, s);
    SameOffset(q2, m, s);
    Commute(q, r);
  }

  lemma Commute(a: nat, b: nat)
    ensures a * b == b * a
  {
  }

  lemma BelowMultiple(q: nat, r: nat, k: nat, x: nat)
    requires r * q <= x < r * k
    ensures r * q + r <= r * k
  {
    if q >= k {
      Mono(r, k, q);
      assert false;
    } else {
      Mono(r, q + 1, k);
      Distribute(r, q);
    }
  }

  lemma Mono(r: nat, a: nat, b: nat)
    requires a <= b
    ensures r * a <= r * b
  {
  }

  lemma Distribute(r: nat, q: nat)
    ensures r * (q + 1) == r * q + r
  {
  }

  /** Whole blocks do not change an offset in a page. */
  lemma SameOffset(q: nat, m: nat, s: nat)
    ensures (PAGE * m * q + s) % PAGE == s % PAGE
  {
    var u, v := Divided(s, PAGE);
    MulAssoc(PAGE, m, q);
    DivUnique(PAGE * (m * q + u) + v, PAGE, m * q + u, v);
  }

  /** A translation keeps the page offset and yields a 48-bit physical address. */
  lemma {:induction false} TranslationShape(ram: Ram, table: nat, va: nat, lvl: nat)
    ensures match Descend(ram, table, va, lvl)
      case None => true
      case Some(pa) => pa % PAGE == va % PAGE && pa < PA_LIMIT
    decreases 4 - lvl
  {
    hide DmaRead, UnLe, EntryPa, BlockPa, AddressBits;
    if lvl >= 4 {
    } else {
      match DmaRead(ram, EntryPa(table, va, lvl), 8)
      case None =>
      case Some(raw) =>
        var e := UnLe(raw);
        if e % 2 != 0 && lvl != 3 {
          if e % 4 == 1 {
            BlockBound(AddressBits(e), va, lvl);
          } else {
            TranslationShape(ram, AddressBits(e), va, lvl + 1);
          }
        }
    }
  }

  /** A walk sees nothing of memory but the descriptors on its path. */
  lemma {:induction false} WalkFrame(ram: Ram, ram': Ram, table: nat, va: nat, lvl: nat)
    requires ram'.ranges == ram.ranges
    requires forall a :: a in TableBytes(ram, table, va, lvl) ==> Peek(ram'.bytes, a) == Peek(ram.bytes, a)
    ensures Descend(ram', table, va, lvl) == Descend(ram, table, va, lvl)
    ensures TableBytes(ram', table, va, lvl) == TableBytes(ram, table, va, lvl)
    decreases 4 - lvl
  {
    if lvl >= 4 {
    } else {
      var pa := EntryPa(table, va, lvl);
      assert Gather(ram'.bytes, Span(pa, 8)) == Gather(ram.bytes, Span(pa, 8)) by {
        forall i | 0 <= i < 8 ensures Peek(ram'.bytes, Span(pa, 8)[i]) == Peek(ram.bytes, Span(pa, 8)[i]) {
          assert Span(pa, 8)[i] in TableBytes(ram, table, va, lvl);
        }
      }
      match DmaRead(ram, pa, 8)
      case None =>
      case Some(raw) =>
        var e := UnLe(raw);
        if e % 2 != 0 && lvl != 3 && e % 4 != 1 {
          WalkFrame(ram, ram', AddressBits(e), va, lvl + 1);
        }
    }
  }

  // ---- the walk as a translation regime ----

  /** The n virtual addresses from va on. */
  function Addresses(va: U64, n: nat): (r: seq<U64>)
    ensures |r| == n && forall i :: 0 <= i < n ==> r[i] == Plus(va, i)
  {
    seq(n, i requires 0 <= i < n => Plus(va, i))
  }

  /** An address space: its walk, and the descriptor bytes the walk of an address reads. */
  datatype Mmu = Mmu(walk: (Ram, U64) -> nat, descriptors: (Ram, U64) -> set<nat>)

  /** The physical address of each byte, translated on its own. */
  function Pas(m: Mmu, ram: Ram, vas: seq<U64>): (r: seq<nat>)
    ensures |r| == |vas| && forall i :: 0 <= i < |vas| ==> r[i] == m.walk(ram, vas[i])
  {
    seq<nat>(|vas|, i requires 0 <= i < |vas| => m.walk(ram, vas[i]))
  }

  function Stage1(ttbr0: U64): Mmu {
    Mmu((ram, va) => Walk(ram, ttbr0, va), (ram, va) => WalkBytes(ram, ttbr0, va))
  }

  predicate WithinPage(va: U64, n: nat) { va % PAGE + n <= PAGE }

  ghost predicate AgreeOn(ram: Ram, ram': Ram, where: set<nat>) {
    ram'.ranges == ram.ranges && forall a :: a in where ==> Peek(ram'.bytes, a) == Peek(ram.bytes, a)
  }

  /** What page-chunked access relies on: a page moves as a whole, and only descriptors matter. */
  ghost predicate Regime(m: Mmu) {
    && (forall ram: Ram, va: U64, n: nat :: m.walk(ram, va) != 0 && WithinPage(va, n) ==>
          Pas(m, ram, Addresses(va, n)) == Span(m.walk(ram, va), n))
    && (forall ram: Ram, va: U64 :: m.walk(ram, va) != 0 ==> m.walk(ram, va) % PAGE == va % PAGE)
    && (forall ram: Ram, ram': Ram, va: U64 :: AgreeOn(ram, ram', m.descriptors(ram, va)) ==>
          m.walk(ram', va) == m.walk(ram, va) && m.descriptors(ram', va) == m.descriptors(ram, va))
  }

  lemma InPage(va: U64, i: nat)
    requires va % PAGE + i < PAGE
    ensures Plus(va, i) == va + i && Plus(va, i) / PAGE == va / PAGE && Plus(va, i) % PAGE == va % PAGE + i
  {
  }

  lemma WalkInPage(ram: Ram, ttbr0: U64, va: U64, i: nat)
    requires Walk(ram, ttbr0, va) != 0 && va % PAGE + i < PAGE
    ensures Walk(ram, ttbr0, Plus(va, i)) == Walk(ram, ttbr0, va) + i
  {
    InPage(va, i);
    SamePage(ram, AddressBits(ttbr0), va, Plus(va, i), 0);
  }

  lemma PageIsContiguous(ram: Ram, ttbr0: U64, va: U64, n: nat)
    requires Walk(ram, ttbr0, va) != 0 && WithinPage(va, n)
    ensures Pas(Stage1(ttbr0), ram, Addresses(va, n)) == Span(Walk(ram, ttbr0, va), n)
  {
    forall i | 0 <= i < n
      ensures Pas(Stage1(ttbr0), ram, Addresses(va, n))[i] == Span(Walk(ram, ttbr0, va), n)[i]
    {
      WalkInPage(ram, ttbr0, va, i);
    }
  }

  /** Every page table, with its blocks and pages, is such a regime. */
  lemma Stage1IsRegime(ttbr0: U64)
    ensures Regime(Stage1(ttbr0))
  {
    var m := Stage1(ttbr0);
    forall ram: Ram, va: U64, n: nat | m.walk(ram, va) != 0 && WithinPage(va, n)
      ensures Pas(m, ram, Addresses(va, n)) == Span(m.walk(ram, va), n)
    {
      PageIsContiguous(ram, ttbr0, va, n);
    }
    forall ram: Ram, va: U64
      ensures Walk(ram, ttbr0, va) != 0 ==> Walk(ram, ttbr0, va) % PAGE == va % PAGE
    {
      TranslationShape(ram, AddressBits(ttbr0), va, 0);
    }
    forall ram: Ram, ram': Ram, va: U64 | AgreeOn(ram, ram', WalkBytes(ram, ttbr0, va))
      ensures Walk(ram', ttbr0, va) == Walk(ram, ttbr0, va)
      ensures WalkBytes(ram', ttbr0, va) == WalkBytes(ram, ttbr0, va)
    {
      WalkFrame(ram, ram', AddressBits(ttbr0), va, 0);
    }
  }
}
