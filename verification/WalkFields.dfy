/**
 The page walk by the bit fields of addresses and descriptors: which entry of which table is
 read, and which physical address comes out, written as sums of the fields.
 */
module WalkFields {
  import opened Words
  import opened GuestMemory
  import opened PageTable
  import opened Division

  /** A 64-bit descriptor or TTBR0: bits 11:0, 47:12 and 63:48. */
  datatype Fields = Fields(low: nat, frame: nat, high: nat)

  predicate FieldsOk(d: Fields) {
    d.low < 0x1000 && d.frame < 0x10_0000_0000 && d.high < 0x1_0000
  }

  function WordOf(d: Fields): nat {
    d.low + 0x1000 * d.frame + 0x1_0000_0000_0000 * d.high
  }

  /** A 64-bit virtual address: bits 63:48, four table indices and the page offset. */
  datatype Split = Split(top: nat, i0: nat, i1: nat, i2: nat, i3: nat, off: nat)

  predicate SplitOk(v: Split) {
    v.top < 0x1_0000 && v.i0 < 512 && v.i1 < 512 && v.i2 < 512 && v.i3 < 512 && v.off < 4096
  }

  function AddressOf(v: Split): nat {
    v.off + 0x1000 * v.i3 + 0x20_0000 * v.i2 + 0x4000_0000 * v.i1 + 0x80_0000_0000 * v.i0 + 0x1_0000_0000_0000 * v.top
  }

  function Index(v: Split, lvl: nat): nat {
    if lvl == 0 then v.i0 else if lvl == 1 then v.i1 else if lvl == 2 then v.i2 else v.i3
  }

  /** The address inside what one entry of a level covers. */
  function Inside(v: Split, lvl: nat): nat {
    if lvl == 0 then v.off + 0x1000 * v.i3 + 0x20_0000 * v.i2 + 0x4000_0000 * v.i1
    else if lvl == 1 then v.off + 0x1000 * v.i3 + 0x20_0000 * v.i2
    else if lvl == 2 then v.off + 0x1000 * v.i3
    else v.off
  }

  /** Pages that one entry of a level covers. */
  function PagesUnder(lvl: nat): (n: nat)
    ensures n > 0
  {
    if lvl == 0 then 0x800_0000 else if lvl == 1 then 0x4_0000 else if lvl == 2 then 0x200 else 1
  }

  /** The first page of the n-th block of a level. */
  function FirstPage(lvl: nat, n: nat): nat {
    n * PagesUnder(lvl)
  }

  /** Eight bytes in one backed range. */
  ghost predicate Backed(ram: Ram, pa: nat) {
    InOneRange(ram.ranges, pa, 8)
  }

  /** Eight bytes as a word, least significant first. */
  function Word8(b: seq<Byte>): int
    requires |b| == 8
  {
    (b[0] as int) + 0x100 * (b[1] as int) + 0x1_0000 * (b[2] as int) + 0x100_0000 * (b[3] as int)
    + 0x1_0000_0000 * (b[4] as int) + 0x100_0000_0000 * (b[5] as int)
    + 0x1_0000_0000_0000 * (b[6] as int) + 0x100_0000_0000_0000 * (b[7] as int)
  }

  /** The word in the eight bytes from pa on. */
  function WordAt(ram: Ram, pa: nat): int {
    var b := ram.bytes;
    Word8([Peek(b, pa), Peek(b, pa + 1), Peek(b, pa + 2), Peek(b, pa + 3),
           Peek(b, pa + 4), Peek(b, pa + 5), Peek(b, pa + 6), Peek(b, pa + 7)])
  }

  lemma UnLe8(s: seq<Byte>)
    requires |s| == 8
    ensures UnLe(s) == Word8(s)
  {
    hide UnLe;
    UnLeNext(s, 0);
    UnLeNext(s, 1);
    UnLeNext(s, 2);
    UnLeNext(s, 3);
    UnLeNext(s, 4);
    UnLeNext(s, 5);
    UnLeNext(s, 6);
    UnLeNext(s, 7);
    assert UnLe(s[8..]) == 0 by { UnLeNone(s[8..]); }
    assert s[0..] == s;
  }

  lemma UnLeNone(s: seq<Byte>)
    requires s == []
    ensures UnLe(s) == 0
  {
  }

  lemma UnLeNext(s: seq<Byte>, i: nat)
    requires i < |s|
    ensures UnLe(s[i..]) == s[i] + 256 * UnLe(s[i + 1..])
  {
    assert s[i..][1..] == s[i + 1..];
  }

  lemma ReadIsWord(ram: Ram, pa: nat)
    ensures DmaRead(ram, pa, 8).Some? <==> Backed(ram, pa)
    ensures DmaRead(ram, pa, 8).Some? ==> UnLe(DmaRead(ram, pa, 8).value) == WordAt(ram, pa)
  {
    hide UnLe, Word8, Covered, InOneRange;
    CoveredExactly(ram.ranges, pa, 8);
    var b, s := ram.bytes, Gather(ram.bytes, Span(pa, 8));
    UnLe8(s);
    assert s == [Peek(b, pa), Peek(b, pa + 1), Peek(b, pa + 2), Peek(b, pa + 3),
                 Peek(b, pa + 4), Peek(b, pa + 5), Peek(b, pa + 6), Peek(b, pa + 7)];
  }

  // ---- the fields ----

  lemma FrameOf(d: Fields)
    requires FieldsOk(d)
    ensures AddressBits(WordOf(d)) == 0x1000 * d.frame && WordOf(d) % 4 == d.low % 4 && WordOf(d) % 2 == d.low % 2
  {
    MiddleBits(d.low, d.frame, d.high);
    LowBits(d);
  }

  lemma MiddleBits(low: nat, frame: nat, high: nat)
    requires low < 0x1000 && frame < 0x10_0000_0000
    ensures (low + 0x1000 * frame + 0x1_0000_0000_0000 * high) / PAGE % 0x10_0000_0000 == frame
  {
    var q := frame + 0x10_0000_0000 * high;
    DivUnique(low + 0x1000 * frame + 0x1_0000_0000_0000 * high, PAGE, q, low);
    DivUnique(q, 0x10_0000_0000, high, frame);
  }

  lemma LowBits(d: Fields)
    ensures WordOf(d) % 4 == d.low % 4 && WordOf(d) % 2 == d.low % 2
  {
    DropMultiple(4, 0x400 * d.frame + 0x4000_0000_0000 * d.high, d.low);
    DropMultiple(2, 0x800 * d.frame + 0x8000_0000_0000 * d.high, d.low);
  }

  lemma DropMultiple(m: nat, k: nat, low: nat)
    requires m > 0
    ensures (m * k + low) % m == low % m
  {
    var q, r := Divided(low, m);
    assert m * k + low == m * (k + q) + r;
    DivUnique(m * k + low, m, k + q, r);
  }

  /** A multiple of 512 and an index, over what one entry covers. */
  lemma IndexOf(above: nat, i: nat, reach: nat, inside: nat)
    requires i < 512 && inside < reach
    ensures var va := reach * (512 * above + i) + inside; va / reach % 512 == i && va % reach == inside
  {
    DivUnique(reach * (512 * above + i) + inside, reach, 512 * above + i, inside);
    DivUnique(512 * above + i, 512, above, i);
  }

  /** The indices above one. */
  function Above(v: Split, lvl: nat): nat {
    if lvl == 0 then v.top
    else if lvl == 1 then 0x200 * v.top + v.i0
    else if lvl == 2 then 0x4_0000 * v.top + 0x200 * v.i0 + v.i1
    else 0x800_0000 * v.top + 0x4_0000 * v.i0 + 0x200 * v.i1 + v.i2
  }

  lemma SumOf(v: Split, lvl: nat)
    requires SplitOk(v) && lvl < 4
    ensures AddressOf(v) == Reach(lvl) * (512 * Above(v, lvl) + Index(v, lvl)) + Inside(v, lvl)
    ensures Inside(v, lvl) < Reach(lvl) && Index(v, lvl) < 512
  {
    if lvl == 0 {
    } else if lvl == 1 {
    } else if lvl == 2 {
    } else {
    }
  }

  lemma EntryOf(table: nat, v: Split, lvl: nat)
    requires SplitOk(v) && lvl < 4
    ensures EntryPa(table, AddressOf(v), lvl) == table + 8 * Index(v, lvl)
    ensures AddressOf(v) % Reach(lvl) == Inside(v, lvl)
  {
    SumOf(v, lvl);
    hide AddressOf, Above, Inside, Index, Reach, SplitOk;
    IndexOf(Above(v, lvl), Index(v, lvl), Reach(lvl), Inside(v, lvl));
  }

  /** A block begins on a multiple of its own size. */
  lemma BlockStart(v: Split, lvl: nat, n: nat, rest: nat)
    requires SplitOk(v) && lvl < 3 && rest < PagesUnder(lvl)
    ensures BlockPa(0x1000 * (FirstPage(lvl, n) + rest), AddressOf(v), lvl) == 0x1000 * FirstPage(lvl, n) + Inside(v, lvl)
  {
    hide AddressOf, EntryPa, Inside;
    EntryOf(0, v, lvl);
    BlockBase(n, PagesUnder(lvl), rest);
    assert Reach(lvl) == 0x1000 * PagesUnder(lvl);
  }

  lemma BlockBase(n: nat, pages: nat, rest: nat)
    requires rest < pages
    ensures var r := 0x1000 * pages; 0x1000 * (n * pages + rest) / r * r == 0x1000 * (n * pages)
  {
    var r := 0x1000 * pages;
    assert 0x1000 * (n * pages + rest) == r * n + 0x1000 * rest;
    DivUnique(0x1000 * (n * pages + rest), r, n, 0x1000 * rest);
  }

  // ---- the path of a walk ----

  /** The block that a frame number lies in, and where. */
  predicate InBlock(frame: nat, lvl: nat, n: nat, rest: nat) {
    rest < PagesUnder(lvl) && frame == FirstPage(lvl, n) + rest
  }

  ghost predicate BlockAddress(frame: nat, v: Split, lvl: nat, pa: nat) {
    exists n: nat, rest: nat :: InBlock(frame, lvl, n, rest) && pa == 0x1000 * FirstPage(lvl, n) + Inside(v, lvl)
  }

  /** The physical address a descriptor gives for an address of its level, if any. */
  ghost predicate Yields(d: Fields, v: Split, lvl: nat, pa: Option<nat>) {
    if d.low % 2 == 0 then pa == None
    else if lvl == 3 then pa == Some(0x1000 * d.frame + v.off)
    else (d.low % 4 == 1 && pa.Some? && BlockAddress(d.frame, v, lvl, pa.value))
  }

  /** The table a level reads: that of TTBR0, then the one the descriptor of the level above names. */
  function TableOf(t: Fields, ds: seq<Fields>, lvl: nat): nat
    requires lvl <= |ds|
  {
    0x1000 * (if lvl == 0 then t.frame else ds[lvl - 1].frame)
  }

  /** A descriptor in backed memory. */
  ghost predicate Holds(ram: Ram, pa: nat, d: Fields) {
    Backed(ram, pa) && WordAt(ram, pa) == WordOf(d)
  }

  /** The descriptors on the path of an address, one per level; all but the last are tables. */
  ghost predicate Path(ram: Ram, t: Fields, v: Split, ds: seq<Fields>) {
    && FieldsOk(t) && SplitOk(v) && |ds| <= 4
    && (forall j :: 0 <= j < |ds| ==> FieldsOk(ds[j]) && Holds(ram, TableOf(t, ds, j) + 8 * Index(v, j), ds[j]))
    && (forall j :: 0 <= j < |ds| - 1 ==> ds[j].low % 4 == 3)
  }

  lemma BlockIs(d: Fields, v: Split, lvl: nat, pa: nat)
    requires SplitOk(v) && lvl < 3 && BlockAddress(d.frame, v, lvl, pa)
    ensures BlockPa(0x1000 * d.frame, AddressOf(v), lvl) == pa
  {
    hide BlockPa, AddressOf, Inside, FirstPage, PagesUnder;
    var n: nat, rest: nat :| InBlock(d.frame, lvl, n, rest) && pa == 0x1000 * FirstPage(lvl, n) + Inside(v, lvl);
    BlockStart(v, lvl, n, rest);
  }

  /** One level: the word read, and what the walk makes of it. */
  lemma LevelStep(ram: Ram, frame: nat, v: Split, lvl: nat, d: Fields, pa: Option<nat>)
    requires SplitOk(v) && lvl < 4 && FieldsOk(d) && Holds(ram, 0x1000 * frame + 8 * Index(v, lvl), d)
    ensures var here := Descend(ram, 0x1000 * frame, AddressOf(v), lvl);
      && (lvl < 3 && d.low % 4 == 3 ==> here == Descend(ram, 0x1000 * d.frame, AddressOf(v), lvl + 1))
      && (Yields(d, v, lvl, pa) ==> here == pa)
  {
    hide DmaRead, UnLe, WordAt, Backed, AddressOf, EntryPa, AddressBits, BlockPa, WordOf, BlockAddress, Index;
    EntryOf(0x1000 * frame, v, lvl);
    ReadIsWord(ram, 0x1000 * frame + 8 * Index(v, lvl));
    FrameOf(d);
    if lvl < 3 && pa.Some? && BlockAddress(d.frame, v, lvl, pa.value) {
      BlockIs(d, v, lvl, pa.value);
    }
  }

  /** Down a path of tables to one of its levels. */
  lemma {:induction false} DownTo(ram: Ram, t: Fields, v: Split, ds: seq<Fields>, lvl: nat)
    requires Path(ram, t, v, ds) && lvl <= |ds| && lvl < 4 && (lvl == |ds| ==> lvl > 0 && ds[lvl - 1].low % 4 == 3)
    ensures Translate(ram, WordOf(t), AddressOf(v)) == Descend(ram, TableOf(t, ds, lvl), AddressOf(v), lvl)
  {
    hide Descend, AddressOf, WordAt, Backed, WordOf;
    if lvl == 0 {
      FrameOf(t);
    } else {
      DownTo(ram, t, v, ds, lvl - 1);
      LevelStep(ram, if lvl == 1 then t.frame else ds[lvl - 2].frame, v, lvl - 1, ds[lvl - 1], None);
    }
  }

  /**
   The walk by its fields: an address whose path ends in a page, a block or an invalid descriptor
   translates to the page or block it names, or not at all.
   */
  lemma WalkFollowsPath(ram: Ram, t: Fields, v: Split, ds: seq<Fields>, pa: Option<nat>)
    requires Path(ram, t, v, ds) && ds != [] && Yields(ds[|ds| - 1], v, |ds| - 1, pa)
    ensures Translate(ram, WordOf(t), AddressOf(v)) == pa
  {
    hide Descend, Translate, AddressOf, WordAt, Backed, WordOf, Yields;
    var lvl := |ds| - 1;
    DownTo(ram, t, v, ds, lvl);
    LevelStep(ram, if lvl == 0 then t.frame else ds[lvl - 1].frame, v, lvl, ds[lvl], pa);
  }

  /** Where the next descriptor of the path is not in backed memory there is no translation. */
  lemma WalkLeavesMemory(ram: Ram, t: Fields, v: Split, ds: seq<Fields>)
    requires Path(ram, t, v, ds) && |ds| < 4 && (ds != [] ==> ds[|ds| - 1].low % 4 == 3)
    requires !Backed(ram, TableOf(t, ds, |ds|) + 8 * Index(v, |ds|))
    ensures Translate(ram, WordOf(t), AddressOf(v)) == None
  {
    hide AddressOf, WordAt, Backed, WordOf, EntryPa, DmaRead;
    if ds == [] {
      FrameOf(t);
    } else {
      DownTo(ram, t, v, ds, |ds|);
    }
    EntryOf(TableOf(t, ds, |ds|), v, |ds|);
    ReadIsWord(ram, TableOf(t, ds, |ds|) + 8 * Index(v, |ds|));
  }

  /** Four levels to a page, in one line: the frame of the last descriptor and the offset. */
  lemma PageIsWalked(ram: Ram, t: Fields, v: Split, d0: Fields, d1: Fields, d2: Fields, d3: Fields)
    requires Path(ram, t, v, [d0, d1, d2, d3]) && d3.low % 2 == 1
    ensures Translate(ram, WordOf(t), AddressOf(v)) == Some(0x1000 * d3.frame + v.off)
  {
    hide Path, Translate;
    WalkFollowsPath(ram, t, v, [d0, d1, d2, d3], Some(0x1000 * d3.frame + v.off));
  }

  // ---- every address has such a path ----

  lemma SplitWord(e: nat) returns (d: Fields)
    requires e < WORD64
    ensures FieldsOk(d) && WordOf(d) == e
  {
    var q, low := Divided(e, 0x1000);
    var high, frame := Divided(q, 0x10_0000_0000);
    d := Fields(low, frame, high);
  }

  lemma Word8Bound(b: seq<Byte>)
    requires |b| == 8
    ensures 0 <= Word8(b) < WORD64
  {
  }

  lemma WordBound(ram: Ram, pa: nat)
    ensures 0 <= WordAt(ram, pa) < WORD64
  {
    hide Word8;
    var b := ram.bytes;
    Word8Bound([Peek(b, pa), Peek(b, pa + 1), Peek(b, pa + 2), Peek(b, pa + 3),
                Peek(b, pa + 4), Peek(b, pa + 5), Peek(b, pa + 6), Peek(b, pa + 7)]);
  }

  /** The last descriptor decides. */
  ghost predicate Decided(v: Split, ds: seq<Fields>, pa: Option<nat>) {
    ds != [] && Yields(ds[|ds| - 1], v, |ds| - 1, pa)
  }

  /** The next descriptor is outside backed memory. */
  ghost predicate Leaves(ram: Ram, t: Fields, v: Split, ds: seq<Fields>) {
    && |ds| < 4 && (ds != [] ==> ds[|ds| - 1].low % 4 == 3)
    && !Backed(ram, TableOf(t, ds, |ds|) + 8 * Index(v, |ds|))
  }

  lemma SomeBlock(frame: nat, v: Split, lvl: nat) returns (pa: nat)
    ensures BlockAddress(frame, v, lvl, pa)
  {
    hide Inside, PagesUnder;
    var n, rest := Divided(frame, PagesUnder(lvl));
    Commute(PagesUnder(lvl), n);
    assert InBlock(frame, lvl, n, rest);
    hide FirstPage;
    pa := 0x1000 * FirstPage(lvl, n) + Inside(v, lvl);
  }

  lemma OddIsOne(x: nat)
    ensures x % 2 != 0 && x % 4 != 3 ==> x % 4 == 1
  {
    var q, r := Divided(x, 4);
    DropMultiple(2, 2 * q, r);
  }

  lemma SomeYield(d: Fields, v: Split, lvl: nat) returns (pa: Option<nat>)
    requires lvl < 4 && (lvl == 3 || d.low % 4 != 3)
    ensures Yields(d, v, lvl, pa)
  {
    hide BlockAddress;
    OddIsOne(d.low);
    if d.low % 2 == 0 {
      pa := None;
    } else if lvl == 3 {
      pa := Some(0x1000 * d.frame + v.off);
    } else {
      var a := SomeBlock(d.frame, v, lvl);
      pa := Some(a);
    }
  }

  lemma PathNext(ram: Ram, t: Fields, v: Split, ds: seq<Fields>, d: Fields)
    requires Path(ram, t, v, ds) && |ds| < 4 && (ds != [] ==> ds[|ds| - 1].low % 4 == 3)
    requires FieldsOk(d) && Holds(ram, TableOf(t, ds, |ds|) + 8 * Index(v, |ds|), d)
    ensures Path(ram, t, v, ds + [d])
  {
    hide Holds, Index, FieldsOk;
    var next := ds + [d];
    forall j | 0 <= j < |next| ensures FieldsOk(next[j]) && Holds(ram, TableOf(t, next, j) + 8 * Index(v, j), next[j]) {
      assert TableOf(t, next, j) == TableOf(t, ds, j);
    }
  }

  /** A path of tables goes on until a descriptor decides or it leaves memory. */
  lemma {:induction false} PathEnds(ram: Ram, t: Fields, v: Split, ds: seq<Fields>)
    returns (all: seq<Fields>, pa: Option<nat>)
    requires Path(ram, t, v, ds) && |ds| < 4 && (ds != [] ==> ds[|ds| - 1].low % 4 == 3)
    ensures Path(ram, t, v, all) && (Decided(v, all, pa) || (Leaves(ram, t, v, all) && pa == None))
    decreases 4 - |ds|
  {
    hide WordAt, Backed, WordOf, Index, Inside, Yields, FieldsOk;
    var lvl := |ds|;
    var at := TableOf(t, ds, lvl) + 8 * Index(v, lvl);
    if !Backed(ram, at) {
      all, pa := ds, None;
    } else {
      WordBound(ram, at);
      var d := SplitWord(WordAt(ram, at));
      PathNext(ram, t, v, ds, d);
      if lvl == 3 || d.low % 4 != 3 {
        all := ds + [d];
        pa := SomeYield(d, v, lvl);
      } else {
        all, pa := PathEnds(ram, t, v, ds + [d]);
      }
    }
  }

  /** So the fields determine every walk: each has one of the paths above, with its result. */
  lemma EveryWalk(ram: Ram, t: Fields, v: Split) returns (ds: seq<Fields>, pa: Option<nat>)
    requires FieldsOk(t) && SplitOk(v)
    ensures Path(ram, t, v, ds) && (Decided(v, ds, pa) || (Leaves(ram, t, v, ds) && pa == None))
    ensures Translate(ram, WordOf(t), AddressOf(v)) == pa
  {
    ds, pa := PathEnds(ram, t, v, []);
    hide Path, Yields, Translate;
    if Decided(v, ds, pa) {
      WalkFollowsPath(ram, t, v, ds, pa);
    } else {
      WalkLeavesMemory(ram, t, v, ds);
    }
  }
}
