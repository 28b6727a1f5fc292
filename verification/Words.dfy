/** Machine words as little-endian byte sequences, and memcpy into a fixed buffer. */
module Words {
  import Division

  type Byte = x: int | 0 <= x < 256

  type U32 = x: int | 0 <= x < 0x1_0000_0000
  type U64 = x: int | 0 <= x < 0x1_0000_0000_0000_0000

  datatype Option<+T> = None | Some(value: T)

  const WORD32: nat := 0x1_0000_0000
  const WORD64: nat := 0x1_0000_0000_0000_0000

  /** 256 to the power n. */
  function Pow256(n: nat): (r: nat)
    ensures r > 0
  {
    if n == 0 then 1 else 256 * Pow256(n - 1)
  }

  /** The low n bytes of x, least significant first: what memcpy of an integer leaves in memory. */
  function Le(n: nat, x: nat): (s: seq<Byte>)
    ensures |s| == n
  {
    if n == 0 then [] else [x % 256] + Le(n - 1, x / 256)
  }

  /** The integer a little-endian byte sequence stands for. */
  function UnLe(s: seq<Byte>): (x: nat)
    ensures x < Pow256(|s|)
  {
    if s == [] then 0 else s[0] + 256 * UnLe(s[1..])
  }

  lemma {:induction false} UnLeLe(n: nat, x: nat)
    requires x < Pow256(n)
    ensures UnLe(Le(n, x)) == x
  {
    if n == 0 {
    } else {
      UnLeLe(n - 1, x / 256);
      assert Le(n, x)[1..] == Le(n - 1, x / 256);
    }
  }

  /** Byte i of the n is the i-th digit in base 256. */
  lemma {:induction false} LeByte(n: nat, x: nat, i: nat)
    requires i < n
    ensures Le(n, x)[i] == x / Pow256(i) % 256
  {
    if i == 0 {
    } else {
      LeByte(n - 1, x / 256, i - 1);
      Division.DivDiv(x, 256, Pow256(i - 1));
    }
  }

  lemma Pow256Values()
    ensures Pow256(1) == 256 && Pow256(2) == 0x1_0000 && Pow256(4) == WORD32 && Pow256(8) == WORD64
  {
    assert Pow256(2) == 0x1_0000;
    assert Pow256(4) == 256 * (256 * Pow256(2));
    assert Pow256(6) == 256 * (256 * Pow256(4));
    assert Pow256(8) == 256 * (256 * Pow256(6));
  }

  /** memcpy(buf + off, data, |data|) on a fixed-size buffer. */
  function Put(buf: seq<Byte>, off: nat, data: seq<Byte>): (r: seq<Byte>)
    requires off + |data| <= |buf|
    ensures |r| == |buf|
    ensures r[off..off + |data|] == data
    ensures forall k :: 0 <= k < off ==> r[k] == buf[k]
    ensures forall k :: off + |data| <= k < |buf| ==> r[k] == buf[k]
  {
    buf[..off] + data + buf[off + |data|..]
  }

  function Get32(buf: seq<Byte>, off: nat): (x: nat)
    requires off + 4 <= |buf|
    ensures x < WORD32
  {
    Pow256Values();
    UnLe(buf[off..off + 4])
  }

  function Get64(buf: seq<Byte>, off: nat): (x: nat)
    requires off + 8 <= |buf|
    ensures x < WORD64
  {
    Pow256Values();
    UnLe(buf[off..off + 8])
  }

  lemma Get32Back(buf: seq<Byte>, off: nat, x: U32)
    requires off + 4 <= |buf| && buf[off..off + 4] == Le(4, x)
    ensures Get32(buf, off) == x
  {
    Pow256Values();
    UnLeLe(4, x);
  }

  lemma Get64Back(buf: seq<Byte>, off: nat, x: U64)
    requires off + 8 <= |buf| && buf[off..off + 8] == Le(8, x)
    ensures Get64(buf, off) == x
  {
    Pow256Values();
    UnLeLe(8, x);
  }

  /** A 64-bit lane is its low word plus its high word. */
  lemma Low32(s: seq<Byte>, off: nat)
    requires off + 8 <= |s|
    ensures Get64(s, off) == Get32(s, off) + WORD32 * Get32(s, off + 4)
  {
    Pow256Values();
    var w := s[off..off + 8];
    assert s[off..off + 4] == w[..4] && s[off + 4..off + 8] == w[4..];
    UnLeSplit(w, 4);
  }

  lemma MulAssoc(a: nat, b: nat, c: nat)
    ensures a * (b * c) == (a * b) * c
  {
  }

  lemma {:induction false} UnLeSplit(s: seq<Byte>, n: nat)
    requires n <= |s|
    ensures UnLe(s) == UnLe(s[..n]) + Pow256(n) * UnLe(s[n..])
    decreases n
  {
    if n > 0 {
      UnLeSplit(s[1..], n - 1);
      assert s[..n][1..] == s[1..][..n - 1] && s[1..][n - 1..] == s[n..];
      MulAssoc(256, Pow256(n - 1), UnLe(s[n..]));
    } else {
      assert s[0..] == s;
    }
  }

  /** A slot of zeros: the state of an assembly buffer after fill(0). */
  function Zeros(n: nat): (s: seq<Byte>)
    ensures |s| == n && forall k :: 0 <= k < n ==> s[k] == 0
  {
    seq(n, _ => 0)
  }

  function Pow2(n: nat): (r: nat)
    ensures r > 0
  {
    if n == 0 then 1 else 2 * Pow2(n - 1)
  }

  /** A bitwise operation on the low n bits of two words. */
  function Bitwise(f: (bool, bool) -> bool, n: nat, a: nat, b: nat): (r: nat)
    ensures r < Pow2(n)
  {
    if n == 0 then 0
    else (if f(a % 2 == 1, b % 2 == 1) then 1 else 0) + 2 * Bitwise(f, n - 1, a / 2, b / 2)
  }

  function Bitwise64(f: (bool, bool) -> bool, a: U64, b: U64): U64 {
    Pow2Values();
    Bitwise(f, 64, a, b)
  }

  lemma {:induction false} Pow2Add(m: nat, n: nat)
    ensures Pow2(m + n) == Pow2(m) * Pow2(n)
  {
    if m == 0 {
    } else {
      Pow2Add(m - 1, n);
    }
  }

  lemma Pow2Values()
    ensures Pow2(8) == 256 && Pow2(16) == 0x1_0000 && Pow2(32) == WORD32 && Pow2(64) == WORD64
  {
    assert Pow2(4) == 16;
    Pow2Add(4, 4);
    Pow2Add(8, 8);
    Pow2Add(16, 16);
    Pow2Add(32, 32);
  }

  /** The first element with a property; the length when there is none. */
  function First<T>(q: seq<T>, p: T -> bool): (k: nat)
    ensures k <= |q| && (k < |q| ==> p(q[k]))
    ensures forall i :: 0 <= i < k ==> !p(q[i])
  {
    if q == [] then 0 else if p(q[0]) then 0 else 1 + First(q[1..], p)
  }

  ghost predicate Distinct(s: seq<nat>) {
    forall i, j :: 0 <= i < j < |s| ==> s[i] != s[j]
  }
}
