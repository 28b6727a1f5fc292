/**
 64-byte flits as eight little-endian 64-bit lanes, and bit fields inside a lane.
 */
module Flits {
  import opened Words
  import opened Division

  const FLIT := 64

  /** Bits lo .. lo + w - 1 of x: (x >> lo) & (2^w - 1). */
  function Bits(x: nat, lo: nat, w: nat): nat {
    if lo > 0 then Bits(x / 2, lo - 1, w)
    else if w == 0 then 0
    else x % 2 + 2 * Bits(x / 2, 0, w - 1)
  }

  /** x with those bits replaced by the low w bits of v: (x & ~mask) | ((v & (2^w - 1)) << lo). */
  function SetBits(x: nat, lo: nat, w: nat, v: nat): nat {
    if lo > 0 then x % 2 + 2 * SetBits(x / 2, lo - 1, w, v)
    else if w == 0 then x
    else v % 2 + 2 * SetBits(x / 2, 0, w - 1, v / 2)
  }

  /** A field reads back the low bits of what was set. */
  lemma {:induction false} SameField(x: nat, lo: nat, w: nat, v: nat)
    ensures Bits(SetBits(x, lo, w, v), lo, w) == Bits(v, 0, w)
  {
    var y := SetBits(x, lo, w, v);
    if lo > 0 {
      assert y / 2 == SetBits(x / 2, lo - 1, w, v);
      SameField(x / 2, lo - 1, w, v);
    } else if w > 0 {
      assert y % 2 == v % 2 && y / 2 == SetBits(x / 2, 0, w - 1, v / 2);
      SameField(x / 2, 0, w - 1, v / 2);
    }
  }

  /** Setting one field leaves every field that does not overlap it. */
  lemma {:induction false} OtherField(x: nat, lo: nat, w: nat, v: nat, lo2: nat, w2: nat)
    requires lo2 + w2 <= lo || lo + w <= lo2
    ensures Bits(SetBits(x, lo, w, v), lo2, w2) == Bits(x, lo2, w2)
    decreases lo + w + lo2 + w2
  {
    var y := SetBits(x, lo, w, v);
    if lo > 0 {
      assert y % 2 == x % 2 && y / 2 == SetBits(x / 2, lo - 1, w, v);
      if lo2 > 0 {
        OtherField(x / 2, lo - 1, w, v, lo2 - 1, w2);
      } else if w2 > 0 {
        OtherField(x / 2, lo - 1, w, v, 0, w2 - 1);
      }
    } else if w > 0 && lo2 > 0 {
      assert y / 2 == SetBits(x / 2, 0, w - 1, v / 2);
      OtherField(x / 2, 0, w - 1, v / 2, lo2 - 1, w2);
    }
  }

  lemma {:induction false} SetBitsFits(x: nat, lo: nat, w: nat, v: nat, n: nat)
    requires x < Pow2(n) && lo + w <= n
    ensures SetBits(x, lo, w, v) < Pow2(n)
  {
    if lo > 0 {
      SetBitsFits(x / 2, lo - 1, w, v, n - 1);
    } else if w > 0 {
      SetBitsFits(x / 2, 0, w - 1, v / 2, n - 1);
    }
  }

  /** The low w bits are the value modulo 2^w. */
  lemma {:induction false} LowBits(x: nat, w: nat)
    ensures Bits(x, 0, w) == x % Pow2(w)
  {
    if w == 0 {
    } else {
      LowBits(x / 2, w - 1);
      ModHalf(x, Pow2(w - 1));
    }
  }

  lemma ModHalf(x: nat, q: nat)
    requires q > 0
    ensures x % (2 * q) == x % 2 + 2 * (x / 2 % q)
  {
    var m, r := Divided(x / 2, q);
    MulAssoc(2, q, m);
    DivUnique(x, 2 * q, m, x % 2 + 2 * r);
  }

  /** Fields of a word with a low part of n bits and a high part. */
  lemma {:induction false} Halves(n: nat, a: nat, b: nat, lo: nat, w: nat)
    requires a < Pow2(n)
    ensures Bits(a + Pow2(n) * b, n + lo, w) == Bits(b, lo, w)
    ensures Bits(a + Pow2(n) * b, 0, n) == a
  {
    if n == 0 {
    } else {
      MulAssoc(2, Pow2(n - 1), b);
      assert (a + Pow2(n) * b) / 2 == a / 2 + Pow2(n - 1) * b && (a + Pow2(n) * b) % 2 == a % 2;
      Halves(n - 1, a / 2, b, lo, w);
    }
  }

  /** Byte k of a little-endian word is its field of bits 8k .. 8k + 7. */
  lemma {:induction false} ByteField(s: seq<Byte>, k: nat)
    requires k < |s|
    ensures Bits(UnLe(s), 8 * k, 8) == s[k]
  {
    hide Bits;
    Pow2Values();
    if k == 0 {
      Halves(8, s[0], UnLe(s[1..]), 0, 0);
    } else {
      Halves(8, s[0], UnLe(s[1..]), 8 * (k - 1), 8);
      ByteField(s[1..], k - 1);
    }
  }

  // ---- lanes ----

  function Lane(f: seq<Byte>, k: nat): nat
    requires |f| == FLIT && k < 8
  {
    Get64(f, 8 * k)
  }

  /** lane_set on a flit. */
  function LaneSet(f: seq<Byte>, lane: nat, lo: nat, w: nat, v: nat): (r: seq<Byte>)
    requires |f| == FLIT && lane < 8
    ensures |r| == FLIT
  {
    Put(f, 8 * lane, Le(8, SetBits(Lane(f, lane), lo, w, v)))
  }

  lemma LaneSetLane(f: seq<Byte>, lane: nat, lo: nat, w: nat, v: nat, k: nat)
    requires |f| == FLIT && lane < 8 && k < 8 && lo + w <= 64
    ensures Lane(LaneSet(f, lane, lo, w, v), k) == if k == lane then SetBits(Lane(f, lane), lo, w, v) else Lane(f, k)
  {
    hide SetBits, Bits;
    Pow2Values();
    var f' := LaneSet(f, lane, lo, w, v);
    if k == lane {
      SetBitsFits(Lane(f, lane), lo, w, v, 64);
      Get64Back(f', 8 * lane, SetBits(Lane(f, lane), lo, w, v));
    } else {
      assert f'[8 * k..8 * k + 8] == f[8 * k..8 * k + 8];
    }
  }

  /** A byte of a flit, as a field of its lane. */
  lemma ByteOfLane(f: seq<Byte>, lane: nat, k: nat)
    requires |f| == FLIT && lane < 8 && k < 8
    ensures Bits(Lane(f, lane), 8 * k, 8) == f[8 * lane + k]
  {
    ByteField(f[8 * lane..8 * lane + 8], k);
  }

  /** The low 32-bit word of a lane. */
  lemma LowWord(f: seq<Byte>, lane: nat)
    requires |f| == FLIT && lane < 8
    ensures Get32(f, 8 * lane) == Bits(Lane(f, lane), 0, 32)
  {
    hide Bits;
    Pow2Values();
    Low32(f, 8 * lane);
    Halves(32, Get32(f, 8 * lane), Get32(f, 8 * lane + 4), 0, 0);
  }
}
