/** The DMA loops of the NIC as it runs them: memory and MR table are fields, updated in place. */
module DmaEngine {
  import opened Words
  import opened GuestMemory
  import opened PageTable
  import opened MrAccess
  import opened PipePacket
  import opened MrCopy

  /** One entry of mr_table_. */
  datatype MrEntry = MrEntry(vaBase: U64, len: U64, ttbr0: U64)

  function View(entries: map<U32, MrEntry>): MrTable {
    map t | t in entries :: Mr(entries[t].vaBase, entries[t].len, Stage1(entries[t].ttbr0))
  }

  lemma ViewIsTableOk(entries: map<U32, MrEntry>)
    ensures TableOk(View(entries))
  {
    forall t | t in entries ensures Regime(View(entries)[t].mmu) {
      Stage1IsRegime(entries[t].ttbr0);
    }
  }

  lemma ViewEntry(entries: map<U32, MrEntry>, t: U32)
    ensures t in View(entries) <==> t in entries
    ensures t in entries ==> View(entries)[t] == Mr(entries[t].vaBase, entries[t].len, Stage1(entries[t].ttbr0))
  {
  }

  class Engine {
    var ram: Ram
    var entries: map<U32, MrEntry>
    var hw: HbmWrite

    constructor (ram: Ram, hbm: seq<Byte>)
      requires |hbm| >= PACKET
      ensures this.ram == ram && entries == map[] && HbmOk(hw)
    {
      this.ram := ram;
      this.entries := map[];
      this.hw := HbmWrite(hbm, false, false, 0, 0);
    }

    /** The scan of the backing store for a range that holds all of [pa, pa + len). */
    method FindRange(pa: nat, len: nat) returns (found: bool)
      ensures found == Covered(ram.ranges, pa, len)
    {
      for i := 0 to |ram.ranges|
        invariant forall j :: 0 <= j < i ==> !Fits(ram.ranges[j], pa, len)
      {
        if Fits(ram.ranges[i], pa, len) {
          return true;
        }
      }
      return false;
    }

    method OuDmaRead(pa: nat, len: nat) returns (r: Option<seq<Byte>>)
      ensures r == DmaRead(ram, pa, len)
    {
      if len == 0 {
        return None;
      }
      var found := FindRange(pa, len);
      return if found then Some(Gather(ram.bytes, Span(pa, len))) else None;
    }

    method OuDmaWrite(pa: nat, data: seq<Byte>) returns (ok: bool)
      modifies this`ram
      ensures Written(ram, ok) == DmaWrite(old(ram), pa, data)
    {
      if data == [] {
        return false;
      }
      ok := FindRange(pa, |data|);
      if ok {
        ram := ram.(bytes := Scatter(ram.bytes, Span(pa, |data|), data));
      }
    }

    method OuWalk(ttbr0: U64, va: U64) returns (pa: nat)
      ensures pa == Walk(ram, ttbr0, va)
    {
      pa := 0;
      var table: nat := AddressBits(ttbr0);
      var lvl := 0;
      while lvl < 4
        invariant lvl <= 4
        invariant Translate(ram, ttbr0, va) == Descend(ram, table, va, lvl)
      {
        var raw := OuDmaRead(EntryPa(table, va, lvl), 8);
        if raw.None? {
          return 0;
        }
        var e := UnLe(raw.value);
        if e % 2 == 0 {
          return 0;
        }
        var out := AddressBits(e);
        if lvl == 3 {
          return out + va % PAGE;
        }
        if e % 4 == 1 {
          return BlockPa(out, va, lvl);
        }
        table := out;
        lvl := lvl + 1;
      }
    }

    method OuDmaMrRead(token: U32, va: U64, len: nat) returns (r: Option<seq<Byte>>)
      ensures r == MrRead(ram, View(entries), token, va, len)
    {
      hide ReadPieces, Pieces, DmaRead, Walk, View, Plus;
      ViewEntry(entries, token);
      if token !in entries || !InMr(Mr(entries[token].vaBase, entries[token].len, Stage1(entries[token].ttbr0)), va, len) {
        return None;
      }
      ghost var m := View(entries)[token].mmu;
      var buf: seq<Byte> := [];
      var cur: U64, left: nat := va, len;
      PrependNothing(ReadPieces(m, ram, Pieces(va, len)));
      while left > 0
        invariant ReadPieces(m, ram, Pieces(va, len)) == Prepend(buf, ReadPieces(m, ram, Pieces(cur, left)))
      {
        ReadUnroll(m, ram, cur, left);
        var pa := OuWalk(entries[token].ttbr0, cur);
        if pa == 0 {
          return None;
        }
        var n := Chunk(cur, left);
        var part := OuDmaRead(pa, n);
        if part.None? {
          return None;
        }
        PrependTwice(buf, part.value, ReadPieces(m, ram, Pieces(Plus(cur, n), left - n)));
        buf := buf + part.value;
        cur, left := Plus(cur, n), left - n;
      }
      ReadNothing(m, ram, cur);
      assert buf + [] == buf;
      return Some(buf);
    }

    method OuDmaMrWrite(token: U32, va: U64, data: seq<Byte>) returns (ok: bool)
      modifies this`ram
      ensures Written(ram, ok) == MrWrite(old(ram), View(entries), token, va, data)
    {
      if token !in entries || !InMr(View(entries)[token], va, |data|) {
        return false;
      }
      ghost var m := View(entries)[token].mmu;
      var cur, rest := va, data;
      while rest != []
        invariant WritePieces(m, old(ram), Pieces(va, |data|), data) == WritePieces(m, ram, Pieces(cur, |rest|), rest)
        decreases |rest|
      {
        var pa := OuWalk(entries[token].ttbr0, cur);
        if pa == 0 {
          return false;
        }
        var n := Chunk(cur, |rest|);
        WriteUnroll(m, ram, cur, rest);
        ok := OuDmaWrite(pa, rest[..n]);
        if !ok {
          return;
        }
        cur, rest := Plus(cur, n), rest[n..];
      }
      return true;
    }

    method OuCopyMr(dt: U32, dv: U64, st: U32, sv: U64, len: nat) returns (ok: bool)
      modifies this`ram
      ensures Written(ram, ok) == CopyMr(old(ram), View(entries), dt, dv, st, sv, len)
    {
      hide MrRead, MrWrite, View;
      var d, s, left := dv, sv, len;
      while left > 0
        invariant CopyMr(old(ram), View(entries), dt, dv, st, sv, len) == CopyMr(ram, View(entries), dt, d, st, s, left)
      {
        var n := Min(left, BOUNCE);
        var buf := OuDmaMrRead(st, s, n);
        if buf.None? {
          return false;
        }
        ok := OuDmaMrWrite(dt, d, buf.value);
        if !ok {
          return;
        }
        d, s, left := Plus(d, n), Plus(s, n), left - n;
      }
      return true;
    }

    /** The packet flits leave one by one and land one by one. */
    method SendPacket(chunk: seq<Byte>)
      requires |chunk| <= |hw.hbm|
      modifies this`hw
      ensures hw == Land(Cleared(old(hw), |chunk|), Packet(chunk))
    {
      hw := Cleared(hw, |chunk|);
      ghost var start := hw;
      var fs := Packet(chunk);
      while fs != []
        invariant WholeFlits(fs) && Land(start, Packet(chunk)) == Land(hw, fs)
        decreases |fs|
      {
        hw := LandFlit(hw, fs[0]);
        fs := fs[1..];
      }
    }

    method OuPipeRoute(data: seq<Byte>, dt: U32, dv: U64) returns (ok: bool)
      requires HbmOk(hw)
      modifies this`ram, this`hw
      ensures HbmOk(hw)
      ensures Written(ram, ok) == PipeRoute(old(ram), old(hw), View(entries), data, dt, dv)
    {
      if data == [] {
        return false;
      }
      var d, rest := dv, data;
      while rest != []
        invariant HbmOk(hw)
        invariant RouteFrom(old(ram), old(hw), View(entries), data, dt, dv) == RouteFrom(ram, hw, View(entries), rest, dt, d)
        decreases |rest|
      {
        var n := Min(|rest|, PACKET);
        SendPacket(rest[..n]);
        ok := OuDmaMrWrite(dt, d, hw.hbm[..n]);
        if !ok {
          return;
        }
        d, rest := Plus(d, n), rest[n..];
      }
      return true;
    }

    method OuPipeCopy(dt: U32, dv: U64, st: U32, sv: U64, len: nat) returns (ok: bool)
      requires HbmOk(hw)
      modifies this`ram, this`hw
      ensures HbmOk(hw)
      ensures Written(ram, ok) == PipeCopy(old(ram), old(hw), View(entries), dt, dv, st, sv, len)
    {
      if len == 0 {
        return false;
      }
      var buf := OuDmaMrRead(st, sv, len);
      if buf.None? {
        return false;
      }
      ok := OuPipeRoute(buf.value, dt, dv);
    }
  }

  lemma ReadNothing(m: Mmu, ram: Ram, va: U64)
    ensures ReadPieces(m, ram, Pieces(va, 0)) == Some([])
  {
  }

  lemma ReadUnroll(m: Mmu, ram: Ram, va: U64, len: nat)
    requires len > 0
    ensures
      var pa, n := m.walk(ram, va), Chunk(va, len);
      ReadPieces(m, ram, Pieces(va, len))
      == if pa == 0 || DmaRead(ram, pa, n).None? then None
         else Prepend(DmaRead(ram, pa, n).value, ReadPieces(m, ram, Pieces(Plus(va, n), len - n)))
  {
    assert Pieces(va, len)[1..] == Pieces(Plus(va, Chunk(va, len)), len - Chunk(va, len));
  }

  lemma WriteUnroll(m: Mmu, ram: Ram, va: U64, data: seq<Byte>)
    requires data != []
    ensures
      var pa, n := m.walk(ram, va), Chunk(va, |data|);
      var w := DmaWrite(ram, pa, data[..n]);
      WritePieces(m, ram, Pieces(va, |data|), data)
      == if pa == 0 then Written(ram, false) else if !w.ok then w
         else WritePieces(m, w.ram, Pieces(Plus(va, n), |data[n..]|), data[n..])
  {
    var n := Chunk(va, |data|);
    assert Pieces(va, |data|)[1..] == Pieces(Plus(va, n), |data[n..]|);
  }

  function Prepend(head: seq<Byte>, tail: Option<seq<Byte>>): Option<seq<Byte>> {
    if tail.None? then None else Some(head + tail.value)
  }

  lemma PrependNothing(c: Option<seq<Byte>>)
    ensures Prepend([], c) == c
  {
    if c.Some? {
      assert [] + c.value == c.value;
    }
  }

  lemma PrependTwice(a: seq<Byte>, b: seq<Byte>, c: Option<seq<Byte>>)
    ensures Prepend(a, Prepend(b, c)) == Prepend(a + b, c)
  {
    if c.Some? {
      assert a + (b + c.value) == (a + b) + c.value;
    }
  }
}
