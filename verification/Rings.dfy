/**
 The fixed-size ring buffers of the provider: slots plus a head and a tail index, one slot
 always left free. Live is the queue a ring stands for.
 */
module Rings {
  datatype Ring<T> = Ring(slots: seq<T>, head: nat, tail: nat)

  predicate Ok<T>(r: Ring<T>) {
    r.head < |r.slots| && r.tail < |r.slots|
  }

  /** (i + 1) % n */
  function Next(i: nat, n: nat): (j: nat)
    requires i < n
    ensures j < n
  {
    if i + 1 == n then 0 else i + 1
  }

  predicate Full<T>(r: Ring<T>)
    requires Ok(r)
  {
    Next(r.tail, |r.slots|) == r.head
  }

  function Count<T>(r: Ring<T>): (n: nat)
    requires Ok(r)
    ensures n < |r.slots|
  {
    if r.head <= r.tail then r.tail - r.head else r.tail + |r.slots| - r.head
  }

  /** The slot of the k-th live element. */
  function Slot<T>(r: Ring<T>, k: nat): (i: nat)
    requires Ok(r) && k <= Count(r)
    ensures i < |r.slots|
  {
    if r.head + k < |r.slots| then r.head + k else r.head + k - |r.slots|
  }

  function Live<T>(r: Ring<T>): (q: seq<T>)
    requires Ok(r)
    ensures |q| == Count(r)
  {
    seq(Count(r), k requires 0 <= k < Count(r) => r.slots[Slot(r, k)])
  }

  function Push<T>(r: Ring<T>, x: T): (r': Ring<T>)
    requires Ok(r)
    ensures Ok(r') && |r'.slots| == |r.slots|
  {
    Ring(r.slots[r.tail := x], r.head, Next(r.tail, |r.slots|))
  }

  function Pop<T>(r: Ring<T>): (r': Ring<T>)
    requires Ok(r)
    ensures Ok(r') && |r'.slots| == |r.slots|
  {
    r.(head := Next(r.head, |r.slots|))
  }

  /** Overwrite slot i in place. */
  function Set<T>(r: Ring<T>, i: nat, x: T): (r': Ring<T>)
    requires Ok(r) && i < |r.slots|
    ensures Ok(r') && |r'.slots| == |r.slots|
  {
    r.(slots := r.slots[i := x])
  }

  /** A push guarded by the full test overwrites nothing live: the queue only grows. */
  lemma PushLive<T>(r: Ring<T>, x: T)
    requires Ok(r) && !Full(r)
    ensures Live(Push(r, x)) == Live(r) + [x]
  {
    var q := Live(Push(r, x));
    assert |q| == |Live(r)| + 1;
    assert forall k :: 0 <= k < |Live(r)| ==> q[k] == Live(r)[k];
  }

  lemma PopLive<T>(r: Ring<T>)
    requires Ok(r) && Live(r) != []
    ensures Live(Pop(r)) == Live(r)[1..]
  {
    assert |Live(Pop(r))| == |Live(r)| - 1;
    assert forall k :: 0 <= k < |Live(Pop(r))| ==> Live(Pop(r))[k] == Live(r)[k + 1];
  }

  lemma SetLive<T>(r: Ring<T>, k: nat, x: T)
    requires Ok(r) && k < Count(r)
    ensures Live(Set(r, Slot(r, k), x)) == Live(r)[k := x]
  {
  }

  /** The slot before the tail: the last live element, or no live element at all. */
  lemma SetLast<T>(r: Ring<T>, i: nat, x: T)
    requires Ok(r) && i < |r.slots| && Next(i, |r.slots|) == r.tail
    ensures Live(Set(r, i, x)) == if Live(r) == [] then [] else Live(r)[|Live(r)| - 1 := x]
  {
    if Live(r) != [] {
      assert i == Slot(r, Count(r) - 1);
    } else {
      assert Live(Set(r, i, x)) == [];
    }
  }

  /** Pushing into a full ring would make it look empty: the guard is needed. */
  lemma UnguardedPush<T>(r: Ring<T>, x: T)
    requires Ok(r) && Full(r)
    ensures Live(Push(r, x)) == []
  {
    assert |Live(Push(r, x))| == 0;
  }
}
