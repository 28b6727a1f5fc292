/**
 The walk of ou_walk against the descriptor types of VMSAv8-64 (4 KB granule, 48-bit addresses;
 section D8.3 of the Arm Architecture Reference Manual, DDI 0487): type 1 is a block at levels 1
 and 2 and reserved at levels 0 and 3, type 3 is a table at levels 0 to 2 and a page at level 3.
 */
module ArmWalk {
  import opened Words
  import opened GuestMemory
  import opened PageTable

  /** The walk of the manual: a descriptor of a reserved type translates nothing. */
  function ArmDescend(ram: Ram, table: nat, va: nat, lvl: nat): (r: Option<nat>)
    decreases 4 - lvl
  {
    if lvl >= 4 then None
    else match DmaRead(ram, EntryPa(table, va, lvl), 8)
      case None => None
      case Some(raw) =>
        var e := UnLe(raw);
        var out := AddressBits(e);
        if e % 4 == 3 then
          if lvl == 3 then Some(out + va % PAGE) else ArmDescend(ram, out, va, lvl + 1)
        else if e % 4 == 1 && (lvl == 1 || lvl == 2) then Some(BlockPa(out, va, lvl))
        else None
  }

  /** The path ends in a type-1 descriptor at level 0 or 3. */
  predicate EndsReserved(ram: Ram, table: nat, va: nat, lvl: nat)
    decreases 4 - lvl
  {
    lvl < 4 &&
    match DmaRead(ram, EntryPa(table, va, lvl), 8)
    case None => false
    case Some(raw) =>
      var e := UnLe(raw);
      if e % 4 == 1 then lvl == 0 || lvl == 3
      else e % 4 == 3 && lvl < 3 && EndsReserved(ram, AddressBits(e), va, lvl + 1)
  }

  /** The code walks as the manual says exactly when no reserved descriptor ends the path. */
  lemma {:induction false} WalkIsArmExactly(ram: Ram, table: nat, va: nat, lvl: nat)
    ensures Descend(ram, table, va, lvl) == ArmDescend(ram, table, va, lvl) <==> !EndsReserved(ram, table, va, lvl)
    ensures EndsReserved(ram, table, va, lvl) ==>
      Descend(ram, table, va, lvl).Some? && ArmDescend(ram, table, va, lvl).None?
    decreases 4 - lvl
  {
    hide DmaRead, UnLe, AddressBits, EntryPa, BlockPa;
    if lvl >= 4 {
    } else {
      match DmaRead(ram, EntryPa(table, va, lvl), 8)
      case None =>
      case Some(raw) =>
        var e := UnLe(raw);
        assert e % 2 == e % 4 % 2;
        if e % 4 == 3 && lvl < 3 {
          WalkIsArmExactly(ram, AddressBits(e), va, lvl + 1);
        }
    }
  }

  /** One backed page at 0; the descriptors at 0 and 8 are as given, all others 0. */
  function Tables(first: Byte, second: Byte): Ram {
    Ram([Range(0, PAGE, true)], map[0 := first, 8 := second])
  }

  lemma Descriptor(first: Byte, second: Byte, pa: nat)
    requires pa == 0 || pa == 8
    ensures var raw := DmaRead(Tables(first, second), pa, 8);
      raw.Some? && UnLe(raw.value) == if pa == 0 then first else second
  {
    var ram := Tables(first, second);
    assert Fits(ram.ranges[0], pa, 8);
    var v := if pa == 0 then first else second;
    var raw := Gather(ram.bytes, Span(pa, 8));
    assert raw == [v] + Zeros(7);
    FirstByte(v);
  }

  lemma FirstByte(v: Byte)
    ensures UnLe([v] + Zeros(7)) == v
  {
    ZerosValue(7);
    assert ([v] + Zeros(7))[1..] == Zeros(7);
  }

  lemma {:induction false} ZerosValue(n: nat)
    ensures UnLe(Zeros(n)) == 0
  {
    if n == 0 {
    } else {
      ZerosValue(n - 1);
      assert Zeros(n)[1..] == Zeros(n - 1);
    }
  }

  /** A block at level 0, which the manual reserves: the code takes it for the first 512 GB. */
  lemma LevelZeroBlock(va: nat)
    requires va < Reach(0)
    ensures var ram := Tables(1, 0);
      Descend(ram, 0, va, 0) == Some(va) && Walk(ram, 0, va) == va && ArmDescend(ram, 0, va, 0) == None
  {
    hide DmaRead, UnLe, Tables, EntryPa, AddressBits, BlockPa, Reach;
    Descriptor(1, 0, 0);
    NoAddress();
    FirstBlock(va);
  }

  lemma NoAddress()
    ensures AddressBits(0) == AddressBits(1) == AddressBits(3) == 0
  {
  }

  lemma FirstBlock(va: nat)
    requires va < Reach(0)
    ensures EntryPa(0, va, 0) == 0 && BlockPa(0, va, 0) == va
  {
    FirstEntry(va, 0);
    FirstOf(va, Reach(0));
  }

  lemma FirstOf(va: nat, reach: nat)
    requires va < reach
    ensures 0 / reach * reach + va % reach == va
  {
  }

  /**
   A type-1 descriptor at level 3, which the manual reserves: the code takes it for a page. The
   first entry of the one table points back to the table, so levels 0 to 2 read it and level 3
   reads the second.
   */
  lemma LevelThreeReserved(va: nat)
    requires va / PAGE == 1
    ensures var ram := Tables(3, 1);
      && Descend(ram, 0, va, 0) == Some(va % PAGE) && Walk(ram, 0, va) == va % PAGE
      && ArmDescend(ram, 0, va, 0) == None
  {
    hide DmaRead, UnLe, Tables;
    Descriptor(3, 1, 0);
    Descriptor(3, 1, 8);
    NoAddress();
    Indices(va);
    hide EntryPa, AddressBits, BlockPa;
    var ram, pa := Tables(3, 1), va % PAGE;
    assert Descend(ram, 0, va, 3) == Some(pa) && ArmDescend(ram, 0, va, 3) == None;
    assert Descend(ram, 0, va, 2) == Some(pa) && ArmDescend(ram, 0, va, 2) == None;
    assert Descend(ram, 0, va, 1) == Some(pa) && ArmDescend(ram, 0, va, 1) == None;
  }

  lemma Indices(va: nat)
    requires va / PAGE == 1
    ensures EntryPa(0, va, 0) == EntryPa(0, va, 1) == EntryPa(0, va, 2) == 0 && EntryPa(0, va, 3) == 8
  {
    hide EntryPa;
    assert va < 2 * PAGE;
    FirstEntry(va, 0);
    FirstEntry(va, 1);
    FirstEntry(va, 2);
    assert EntryPa(0, va, 3) == 8 by { SecondEntry(va); }
  }

  lemma FirstEntry(va: nat, lvl: nat)
    requires va < Reach(lvl)
    ensures EntryPa(0, va, lvl) == 0
  {
    assert va / Reach(lvl) == 0;
  }

  lemma SecondEntry(va: nat)
    requires va / PAGE == 1
    ensures EntryPa(0, va, 3) == 8
  {
  }
}
