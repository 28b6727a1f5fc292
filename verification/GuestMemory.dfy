/**
 Guest physical memory as the NIC sees it (ou_dma), and the flat-memory reference:
 reading and writing a list of byte addresses, one at a time.
 */
module GuestMemory {
  import opened Words

  /** One backing-store entry: [start, start + size), with or without host memory behind it. */
  datatype Range = Range(start: nat, size: nat, backed: bool)

  /** Backing-store layout and contents. An address that was never written holds 0. */
  datatype Ram = Ram(ranges: seq<Range>, bytes: map<nat, Byte>)

  predicate Fits(r: Range, pa: nat, len: nat) {
    r.backed && r.start <= pa && pa - r.start + len <= r.size
  }

  predicate Covered(ranges: seq<Range>, pa: nat, len: nat) {
    exists i :: 0 <= i < |ranges| && Fits(ranges[i], pa, len)
  }

  function Peek(bytes: map<nat, Byte>, a: nat): Byte {
    if a in bytes then bytes[a] else 0
  }

  /** The bytes at the given addresses, in order. */
  function Gather(bytes: map<nat, Byte>, pas: seq<nat>): (r: seq<Byte>)
    ensures |r| == |pas|
  {
    seq(|pas|, i requires 0 <= i < |pas| => Peek(bytes, pas[i]))
  }

  /** Store data[i] at pas[i], one byte after the other. */
  function Scatter(bytes: map<nat, Byte>, pas: seq<nat>, data: seq<Byte>): map<nat, Byte>
    requires |pas| == |data|
    decreases |pas|
  {
    if pas == [] then bytes
    else Scatter(bytes[pas[0] := data[0]], pas[1..], data[1..])
  }

  /** The addresses pa, pa + 1, ..., pa + len - 1. */
  function Span(pa: nat, len: nat): (r: seq<nat>)
    ensures |r| == len && forall i :: 0 <= i < len ==> r[i] == pa + i
  {
    seq(len, i requires 0 <= i < len => pa + i)
  }

  ghost predicate Disjoint(p: seq<nat>, q: seq<nat>) {
    forall i :: 0 <= i < |p| ==> p[i] !in q
  }

  // ---- what Scatter and Gather do to each other ----

  lemma {:induction false} ScatterOutside(bytes: map<nat, Byte>, pas: seq<nat>, data: seq<Byte>, a: nat)
    requires |pas| == |data|
    requires a !in pas
    ensures Peek(Scatter(bytes, pas, data), a) == Peek(bytes, a)
    decreases |pas|
  {
    if pas == [] {
    } else {
      ScatterOutside(bytes[pas[0] := data[0]], pas[1..], data[1..], a);
    }
  }

  lemma {:induction false} ScatterInside(bytes: map<nat, Byte>, pas: seq<nat>, data: seq<Byte>, i: nat)
    requires |pas| == |data| && i < |pas|
    requires Distinct(pas)
    ensures Peek(Scatter(bytes, pas, data), pas[i]) == data[i]
    decreases |pas|
  {
    if i == 0 {
      assert pas[0] !in pas[1..];
      ScatterOutside(bytes[pas[0] := data[0]], pas[1..], data[1..], pas[0]);
    } else {
      ScatterInside(bytes[pas[0] := data[0]], pas[1..], data[1..], i - 1);
    }
  }

  lemma {:induction false} ScatterAppend(bytes: map<nat, Byte>, p: seq<nat>, q: seq<nat>, d: seq<Byte>, e: seq<Byte>)
    requires |p| == |d| && |q| == |e|
    ensures Scatter(bytes, p + q, d + e) == Scatter(Scatter(bytes, p, d), q, e)
    decreases |p|
  {
    if p == [] {
      assert p + q == q && d + e == e;
    } else {
      assert (p + q)[1..] == p[1..] + q && (d + e)[1..] == d[1..] + e;
      ScatterAppend(bytes[p[0] := d[0]], p[1..], q, d[1..], e);
    }
  }

  lemma ScatterCut(bytes: map<nat, Byte>, pas: seq<nat>, data: seq<Byte>, n: nat)
    requires |pas| == |data| && n <= |pas|
    ensures Scatter(Scatter(bytes, pas[..n], data[..n]), pas[n..], data[n..]) == Scatter(bytes, pas, data)
  {
    ScatterAppend(bytes, pas[..n], pas[n..], data[..n], data[n..]);
    assert pas[..n] + pas[n..] == pas && data[..n] + data[n..] == data;
  }

  /** Flat memory is a store: distinct addresses read back what was written to them. */
  lemma GatherScatter(bytes: map<nat, Byte>, pas: seq<nat>, data: seq<Byte>)
    requires |pas| == |data| && Distinct(pas)
    ensures Gather(Scatter(bytes, pas, data), pas) == data
  {
    forall i | 0 <= i < |pas| ensures Gather(Scatter(bytes, pas, data), pas)[i] == data[i] {
      ScatterInside(bytes, pas, data, i);
    }
  }

  lemma GatherUntouched(bytes: map<nat, Byte>, pas: seq<nat>, data: seq<Byte>, q: seq<nat>)
    requires |pas| == |data| && Disjoint(q, pas)
    ensures Gather(Scatter(bytes, pas, data), q) == Gather(bytes, q)
  {
    forall i | 0 <= i < |q| ensures Gather(Scatter(bytes, pas, data), q)[i] == Gather(bytes, q)[i] {
      ScatterOutside(bytes, pas, data, q[i]);
    }
  }

  // ---- ou_dma ----

  function DmaRead(ram: Ram, pa: nat, len: nat): (r: Option<seq<Byte>>)
    ensures r.Some? ==> |r.value| == len
  {
    if len == 0 || !Covered(ram.ranges, pa, len) then None
    else Some(Gather(ram.bytes, Span(pa, len)))
  }

  datatype Written = Written(ram: Ram, ok: bool)

  function DmaWrite(ram: Ram, pa: nat, data: seq<Byte>): (w: Written)
    ensures w.ram.ranges == ram.ranges
  {
    if data == [] || !Covered(ram.ranges, pa, |data|) then Written(ram, false)
    else Written(ram.(bytes := Scatter(ram.bytes, Span(pa, |data|), data)), true)
  }

  predicate Contains(r: Range, pa: nat, len: nat) {
    r.backed && r.start <= pa && pa + len <= r.start + r.size
  }

  /** One backed range holds all of [pa, pa + len). */
  ghost predicate InOneRange(ranges: seq<Range>, pa: nat, len: nat) {
    exists i :: 0 <= i < |ranges| && Contains(ranges[i], pa, len)
  }

  /** An access is made exactly if it is not empty and one backed range holds all of it. */
  lemma DmaExactly(ram: Ram, pa: nat, data: seq<Byte>)
    ensures DmaRead(ram, pa, |data|).Some? <==> data != [] && InOneRange(ram.ranges, pa, |data|)
    ensures DmaRead(ram, pa, |data|).Some? ==>
      forall i :: 0 <= i < |data| ==> DmaRead(ram, pa, |data|).value[i] == Peek(ram.bytes, pa + i)
    ensures var w := DmaWrite(ram, pa, data);
      && (w.ok <==> data != [] && InOneRange(ram.ranges, pa, |data|)) && (!w.ok ==> w.ram == ram)
      && (w.ok ==> forall i :: 0 <= i < |data| ==> Peek(w.ram.bytes, pa + i) == data[i])
      && (forall a: nat :: a < pa || pa + |data| <= a ==> Peek(w.ram.bytes, a) == Peek(ram.bytes, a))
  {
    var pas := Span(pa, |data|);
    CoveredExactly(ram.ranges, pa, |data|);
    hide Covered, InOneRange;
    forall i | 0 <= i < |data| ensures Peek(Scatter(ram.bytes, pas, data), pa + i) == data[i] {
      ScatterInside(ram.bytes, pas, data, i);
    }
    forall a: nat | a < pa || pa + |data| <= a ensures Peek(Scatter(ram.bytes, pas, data), a) == Peek(ram.bytes, a) {
      ScatterOutside(ram.bytes, pas, data, a);
    }
  }

  lemma CoveredExactly(ranges: seq<Range>, pa: nat, len: nat)
    ensures Covered(ranges, pa, len) <==> InOneRange(ranges, pa, len)
  {
    if Covered(ranges, pa, len) {
      var i :| 0 <= i < |ranges| && Fits(ranges[i], pa, len);
      assert Contains(ranges[i], pa, len);
    }
    if InOneRange(ranges, pa, len) {
      var i :| 0 <= i < |ranges| && Contains(ranges[i], pa, len);
      assert Fits(ranges[i], pa, len);
    }
  }
}
