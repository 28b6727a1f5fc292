/**
 The resident-page set of the page-swap baselines: a list in most-recently-used order plus an
 index from page to list node. `Stack` is the reference: an LRU stack without a bound.
 */
module Lru {
  import opened Words

  // ---- lists of pages ----

  function Minus(s: seq<nat>, p: nat): (r: seq<nat>)
    ensures p !in r && forall x :: x in r <==> x in s && x != p
    ensures |r| <= |s|
  {
    if s == [] then []
    else if s[0] == p then Minus(s[1..], p)
    else [s[0]] + Minus(s[1..], p)
  }

  function Take(n: nat, s: seq<nat>): (r: seq<nat>)
    ensures |r| <= n && |r| <= |s|
  {
    if |s| <= n then s else s[..n]
  }

  /** Bring a page to the front of an unbounded stack. */
  function Touch(s: seq<nat>, p: nat): seq<nat> {
    [p] + Minus(s, p)
  }

  // ---- what the code does to the list ----

  /** One round of resident_install: promote, or push and evict from the back while over capacity. */
  function InstallOne(s: seq<nat>, p: nat, cap: nat): seq<nat> {
    if p in s then Touch(s, p) else Take(cap, [p] + s)
  }

  /** The pages page, page + 1, ... as 64-bit numbers. */
  function Window(page: U64, count: nat): (w: seq<U64>)
    ensures |w| == count
  {
    seq(count, i requires 0 <= i < count => (page + i) % WORD64)
  }

  function InstallAll(s: seq<nat>, ps: seq<nat>, cap: nat): seq<nat>
    decreases |ps|
  {
    if ps == [] then s
    else InstallOne(InstallAll(s, ps[..|ps| - 1], cap), ps[|ps| - 1], cap)
  }

  /** The swap branch of submit_thread: a hit promotes, a miss installs the prefetch window. */
  function Access(s: seq<nat>, page: U64, window: nat, cap: nat): seq<nat> {
    if page in s then Touch(s, page) else InstallAll(s, Window(page, if window > 0 then window else 1), cap)
  }

  function Resident(trace: seq<U64>, window: nat, cap: nat): seq<nat> {
    if trace == [] then []
    else Access(Resident(trace[..|trace| - 1], window, cap), trace[|trace| - 1], window, cap)
  }

  // ---- a bounded cache is a prefix of the unbounded stack ----

  function TouchAll(s: seq<nat>, ps: seq<nat>): seq<nat> {
    if ps == [] then s else Touch(TouchAll(s, ps[..|ps| - 1]), ps[|ps| - 1])
  }

  lemma {:induction false} MinusAbsent(s: seq<nat>, p: nat)
    requires p !in s
    ensures Minus(s, p) == s
  {
    if s == [] {
    } else {
      MinusAbsent(s[1..], p);
    }
  }

  lemma {:induction false} MinusAppend(s: seq<nat>, t: seq<nat>, p: nat)
    ensures Minus(s + t, p) == Minus(s, p) + Minus(t, p)
  {
    if s == [] {
      assert s + t == t;
    } else {
      assert (s + t)[1..] == s[1..] + t;
      MinusAppend(s[1..], t, p);
    }
  }

  lemma {:induction false} MinusDistinct(s: seq<nat>, p: nat)
    requires Distinct(s)
    ensures Distinct(Minus(s, p)) && |Minus(s, p)| == |s| - if p in s then 1 else 0
  {
    if s == [] {
    } else {
      assert s[0] !in s[1..];
      MinusDistinct(s[1..], p);
      if s[0] == p {
        MinusAbsent(s[1..], p);
      }
    }
  }

  lemma TouchDistinct(s: seq<nat>, p: nat)
    requires Distinct(s)
    ensures Distinct(Touch(s, p))
  {
    MinusDistinct(s, p);
  }

  /** A page in the front part of a stack: touching it leaves the back part alone. */
  lemma TouchHit(head: seq<nat>, tail: seq<nat>, p: nat)
    requires Distinct(head + tail) && p in head
    ensures Touch(head + tail, p) == Touch(head, p) + tail && |Touch(head, p)| == |head|
  {
    hide Minus;
    var s := head + tail;
    var i :| 0 <= i < |head| && head[i] == p;
    assert forall j :: 0 <= j < |tail| ==> tail[j] == s[|head| + j] != s[i];
    MinusAppend(head, tail, p);
    MinusAbsent(tail, p);
    assert forall i, j :: 0 <= i < j < |head| ==> head[i] == s[i] && head[j] == s[j];
    MinusDistinct(head, p);
  }

  lemma TouchMiss(head: seq<nat>, tail: seq<nat>, p: nat)
    requires p !in head
    ensures Touch(head + tail, p) == [p] + head + Minus(tail, p)
  {
    hide Minus;
    MinusAppend(head, tail, p);
    MinusAbsent(head, p);
  }

  /** Installing into the first `cap` pages of a stack gives the first `cap` pages of the touched stack. */
  lemma InstallIsTouch(s: seq<nat>, p: nat, cap: nat)
    requires Distinct(s)
    ensures InstallOne(Take(cap, s), p, cap) == Take(cap, Touch(s, p))
  {
    var head := Take(cap, s);
    var tail := s[|head|..];
    assert s == head + tail;
    if p in head {
      TouchHit(head, tail, p);
      hide Touch;
      assert |s| <= cap ==> Touch(head, p) + [] == Touch(head, p);
      assert |s| > cap ==> (Touch(head, p) + tail)[..cap] == Touch(head, p);
    } else {
      TouchMiss(head, tail, p);
      hide Touch, Minus;
      var t := Minus(tail, p);
      if |s| <= cap {
        assert tail == [] && t == [];
        assert [p] + head + [] == [p] + head;
      } else {
        assert ([p] + head + t)[..cap] == ([p] + head)[..cap];
      }
    }
  }

  lemma {:induction false} TouchAllDistinct(s: seq<nat>, ps: seq<nat>)
    requires Distinct(s)
    ensures Distinct(TouchAll(s, ps))
    decreases |ps|
  {
    if ps == [] {
    } else {
      TouchAllDistinct(s, ps[..|ps| - 1]);
      TouchDistinct(TouchAll(s, ps[..|ps| - 1]), ps[|ps| - 1]);
    }
  }

  /** Evictions in between do not matter: a whole install is the touched stack, cut to capacity. */
  lemma {:induction false} InstallAllIsTouchAll(s: seq<nat>, ps: seq<nat>, cap: nat)
    requires Distinct(s)
    ensures InstallAll(Take(cap, s), ps, cap) == Take(cap, TouchAll(s, ps))
    decreases |ps|
  {
    hide InstallOne, Touch, Take;
    if ps == [] {
    } else {
      var t := TouchAll(s, ps[..|ps| - 1]);
      InstallAllIsTouchAll(s, ps[..|ps| - 1], cap);
      TouchAllDistinct(s, ps[..|ps| - 1]);
      InstallIsTouch(t, ps[|ps| - 1], cap);
    }
  }

  function Reversed(s: seq<nat>): (r: seq<nat>)
    ensures |r| == |s|
  {
    seq(|s|, i requires 0 <= i < |s| => s[|s| - 1 - i])
  }

  lemma {:induction false} TouchedFront(s: seq<nat>, ps: seq<nat>)
    requires Distinct(ps)
    ensures |TouchAll(s, ps)| >= |ps| && TouchAll(s, ps)[..|ps|] == Reversed(ps)
    decreases |ps|
  {
    if ps == [] {
    } else {
      var q, p := ps[..|ps| - 1], ps[|ps| - 1];
      var t := TouchAll(s, q);
      TouchedFront(s, q);
      assert p !in Reversed(q);
      assert t == Reversed(q) + t[|q|..];
      MinusAppend(Reversed(q), t[|q|..], p);
      MinusAbsent(Reversed(q), p);
      hide Minus;
      assert Reversed(ps) == [p] + Reversed(q);
    }
  }

  lemma WindowDistinct(page: U64, count: nat)
    requires count < WORD64
    ensures Distinct(Window(page, count))
  {
    forall i, j | 0 <= i < j < count ensures Window(page, count)[i] != Window(page, count)[j] {
      if page + i < WORD64 <= page + j {
        assert (page + j) % WORD64 == page + j - WORD64 < page + i;
      }
    }
  }

  /**
   After resident_install(page, count, cap) with count <= cap, the pages just installed are at the
   front in reverse order, whatever was evicted while they went in.
   */
  lemma InstalledPagesResident(s: seq<nat>, page: U64, count: nat, cap: nat)
    requires Distinct(s) && |s| <= cap && count <= cap && count < WORD64
    ensures var r := InstallAll(s, Window(page, count), cap);
      |r| >= count && r[..count] == Reversed(Window(page, count)) && |r| <= cap && Distinct(r)
  {
    var w := Window(page, count);
    WindowDistinct(page, count);
    InstallAllIsTouchAll(s, w, cap);
    TouchedFront(s, w);
    TouchAllDistinct(s, w);
    var t := TouchAll(s, w);
    assert Take(cap, s) == s;
    assert Take(cap, t)[..count] == t[..count];
  }

  // ---- stack inclusion ----

  /** Without prefetch an access installs its own page. */
  lemma AccessIsInstall(s: seq<nat>, p: U64, cap: nat)
    ensures Access(s, p, 1, cap) == InstallOne(s, p, cap)
  {
    hide Touch, Take;
    assert Window(p, 1) == [p];
    assert InstallAll(s, [p], cap) == InstallOne(InstallAll(s, [], cap), p, cap);
  }

  /** With a window of 1 the resident list is the unbounded stack of the trace, cut to capacity. */
  lemma {:induction false} ResidentIsPrefix(trace: seq<U64>, cap: nat)
    ensures Resident(trace, 1, cap) == Take(cap, TouchAll([], trace))
    decreases |trace|
  {
    hide InstallOne, Touch, Access;
    if trace == [] {
    } else {
      var before, p := trace[..|trace| - 1], trace[|trace| - 1];
      var t := TouchAll([], before);
      ResidentIsPrefix(before, cap);
      TouchAllDistinct([], before);
      InstallIsTouch(t, p, cap);
      AccessIsInstall(Take(cap, t), p, cap);
    }
  }

  /**
   Stack inclusion: for every trace and cap1 <= cap2 the smaller resident list is a prefix of the
   larger one, so every hit with the smaller cache is a hit with the larger.
   */
  lemma StackInclusion(trace: seq<U64>, cap1: nat, cap2: nat)
    requires cap1 <= cap2
    ensures Resident(trace, 1, cap1) == Take(cap1, Resident(trace, 1, cap2))
    ensures forall page: nat :: page in Resident(trace, 1, cap1) ==> page in Resident(trace, 1, cap2)
  {
    ResidentIsPrefix(trace, cap1);
    ResidentIsPrefix(trace, cap2);
    hide Resident, TouchAll;
    var t := TouchAll([], trace);
    assert Take(cap1, Take(cap2, t)) == Take(cap1, t);
  }

  // ---- every run ----

  lemma InstallKeeps(s: seq<nat>, p: nat, cap: nat)
    requires Distinct(s) && |s| <= cap
    ensures Distinct(InstallOne(s, p, cap)) && |InstallOne(s, p, cap)| <= cap
  {
    hide Minus;
    MinusDistinct(s, p);
  }

  lemma {:induction false} InstallAllKeeps(s: seq<nat>, ps: seq<nat>, cap: nat)
    requires Distinct(s) && |s| <= cap
    ensures Distinct(InstallAll(s, ps, cap)) && |InstallAll(s, ps, cap)| <= cap
    decreases |ps|
  {
    hide InstallOne;
    if ps == [] {
    } else {
      InstallAllKeeps(s, ps[..|ps| - 1], cap);
      InstallKeeps(InstallAll(s, ps[..|ps| - 1], cap), ps[|ps| - 1], cap);
    }
  }

  /** Over every trace, for every window and capacity: no page twice, and never over capacity. */
  lemma {:induction false} ResidentBounded(trace: seq<U64>, window: nat, cap: nat)
    ensures Distinct(Resident(trace, window, cap)) && |Resident(trace, window, cap)| <= cap
    decreases |trace|
  {
    hide InstallAll, Minus;
    if trace == [] {
    } else {
      var s, p := Resident(trace[..|trace| - 1], window, cap), trace[|trace| - 1];
      ResidentBounded(trace[..|trace| - 1], window, cap);
      MinusDistinct(s, p);
      InstallAllKeeps(s, Window(p, if window > 0 then window else 1), cap);
    }
  }

  // ---- inclusion holds for no larger window ----

  lemma ResidentNext(trace: seq<U64>, p: U64, window: nat, cap: nat)
    ensures Resident(trace + [p], window, cap) == Access(Resident(trace, window, cap), p, window, cap)
  {
    assert (trace + [p])[..|trace|] == trace;
  }

  /** Pages that are all new go on top of the stack. */
  lemma {:induction false} TouchAllNew(s: seq<nat>, ps: seq<nat>)
    requires Distinct(ps) && forall i :: 0 <= i < |ps| ==> ps[i] !in s
    ensures TouchAll(s, ps) == Reversed(ps) + s
    decreases |ps|
  {
    hide Minus;
    if ps == [] {
      assert Reversed(ps) + s == s;
    } else {
      hide TouchAll, Reversed;
      var q, p := ps[..|ps| - 1], ps[|ps| - 1];
      assert forall i :: 0 <= i < |q| ==> q[i] == ps[i] != p;
      TouchAllNew(s, q);
      hide Distinct;
      TouchNext(s, ps);
      NotReversed(q, p);
      MinusAbsent(Reversed(q) + s, p);
      ReversedNext(ps);
      assert [p] + (Reversed(q) + s) == [p] + Reversed(q) + s;
    }
  }

  lemma ReversedNext(ps: seq<nat>)
    requires ps != []
    ensures Reversed(ps) == [ps[|ps| - 1]] + Reversed(ps[..|ps| - 1])
  {
  }

  lemma NotReversed(q: seq<nat>, p: nat)
    requires forall i :: 0 <= i < |q| ==> q[i] != p
    ensures p !in Reversed(q)
  {
  }

  lemma TouchNext(s: seq<nat>, ps: seq<nat>)
    requires ps != []
    ensures TouchAll(s, ps) == Touch(TouchAll(s, ps[..|ps| - 1]), ps[|ps| - 1])
  {
  }

  /** A window that does not wrap, newest page first. */
  lemma Downwards(page: U64, w: nat)
    requires page + w <= WORD64
    ensures forall i :: 0 <= i < w ==> Window(page, w)[i] == page + i && Reversed(Window(page, w))[i] == page + w - 1 - i
  {
  }

  /** A miss whose window is all new. */
  lemma MissOfNew(s: seq<nat>, page: U64, w: nat, cap: nat)
    requires Distinct(s) && |s| <= cap && 0 < w < WORD64 && forall i :: 0 <= i < w ==> Window(page, w)[i] !in s
    ensures Access(s, page, w, cap) == Take(cap, Reversed(Window(page, w)) + s)
  {
    var ps := Window(page, w);
    assert ps[0] == page;
    WindowDistinct(page, w);
    TouchAllNew(s, ps);
    InstallAllIsTouchAll(s, ps, cap);
    assert Take(cap, s) == s;
  }

  /** Pages 0 and 2w missed by an empty cache: two windows, the older cut to what room is left. */
  lemma AfterTwoMisses(w: nat, cap: nat)
    requires 2 <= w && 3 * w < WORD64 && (cap == w || cap == w + 1)
    ensures Resident([0, 2 * w], w, cap)
      == Reversed(Window(2 * w, w)) + if cap == w then [] else [w - 1]
  {
    hide Resident, Access, Take, Reversed, Window;
    ResidentNext([], 0, w, cap);
    ResidentNext([0], 2 * w, w, cap);
    assert [] + [0] == [0] && [0] + [2 * w] == [0, 2 * w];
    FirstMiss(w, cap);
    SecondMiss(w, cap);
  }

  lemma FirstMiss(w: nat, cap: nat)
    requires 2 <= w && 3 * w < WORD64 && w <= cap
    ensures Resident([], w, cap) == [] && Access([], 0, w, cap) == Reversed(Window(0, w))
  {
    MissOfNew([], 0, w, cap);
    assert Reversed(Window(0, w)) + [] == Reversed(Window(0, w));
  }

  lemma SecondMiss(w: nat, cap: nat)
    requires 2 <= w && 3 * w < WORD64 && (cap == w || cap == w + 1)
    ensures Access(Reversed(Window(0, w)), 2 * w, w, cap)
      == Reversed(Window(2 * w, w)) + if cap == w then [] else [w - 1]
  {
    hide Access, Window, Reversed, Take, Distinct;
    var a, b, n := Reversed(Window(0, w)), Reversed(Window(2 * w, w)), Window(2 * w, w);
    Downwards(0, w);
    Downwards(2 * w, w);
    forall i | 0 <= i < w ensures n[i] !in a {
      assert n[i] == 2 * w + i;
    }
    DistinctDownwards(a, w - 1);
    MissOfNew(a, 2 * w, w, cap);
    if cap == w {
      TakeFront(b, a);
      assert b + [] == b;
    } else {
      assert a[0] == w - 1;
      assert b + a == (b + [a[0]]) + a[1..];
      TakeFront(b + [a[0]], a[1..]);
    }
  }

  /**
   For every window above 1 inclusion fails, with caches of w and w + 1 pages: the larger one
   hits page w - 1 and does not prefetch page w, the smaller one misses and does.
   */
  lemma PrefetchBreaksInclusion(w: nat)
    requires 2 <= w && 3 * w < WORD64
    ensures w in Resident([0, 2 * w, w - 1], w, w) && w !in Resident([0, 2 * w, w - 1], w, w + 1)
  {
    hide Resident, Access;
    assert [0, 2 * w] + [w - 1] == [0, 2 * w, w - 1];
    ResidentNext([0, 2 * w], w - 1, w, w);
    ResidentNext([0, 2 * w], w - 1, w, w + 1);
    AfterTwoMisses(w, w);
    AfterTwoMisses(w, w + 1);
    SmallPrefetches(w);
    LargeHits(w);
  }

  lemma SmallPrefetches(w: nat)
    requires 2 <= w && 3 * w < WORD64
    ensures w in Access(Reversed(Window(2 * w, w)) + [], w - 1, w, w)
  {
    hide Access, Window, Reversed, Take, Distinct;
    var b, n := Reversed(Window(2 * w, w)), Window(w - 1, w);
    assert b + [] == b;
    Downwards(2 * w, w);
    Downwards(w - 1, w);
    forall i | 0 <= i < w ensures n[i] !in b {
      assert n[i] == w - 1 + i;
      forall j | 0 <= j < w ensures b[j] != n[i] {
        assert b[j] == 3 * w - 1 - j;
      }
    }
    DistinctDownwards(b, 3 * w - 1);
    MissOfNew(b, w - 1, w, w);
    TakeFront(Reversed(n), b);
    assert Reversed(n)[w - 2] == w;
  }

  lemma DistinctDownwards(s: seq<nat>, top: nat)
    requires forall i :: 0 <= i < |s| ==> s[i] == top - i
    ensures Distinct(s)
  {
  }

  lemma TakeFront(a: seq<nat>, b: seq<nat>)
    ensures Take(|a|, a + b) == a
  {
    assert (a + b)[..|a|] == a;
  }

  lemma LargeHits(w: nat)
    requires 2 <= w && 3 * w < WORD64
    ensures w !in Access(Reversed(Window(2 * w, w)) + [w - 1], w - 1, w, w + 1)
  {
    hide Minus, InstallAll;
    var s := Reversed(Window(2 * w, w)) + [w - 1];
    assert forall i :: 0 <= i < w ==> s[i] == 3 * w - 1 - i;
    assert s[w] == w - 1;
  }

  /**
   For every window above 2 it also fails with caches of one and two pages: the larger one hits
   page w - 2, the smaller one misses it and is left with the last page of the window.
   */
  lemma TinyCachesBreakInclusion(w: nat)
    requires 3 <= w < WORD32
    ensures 2 * w - 3 in Resident([0, w - 2], w, 1) && 2 * w - 3 !in Resident([0, w - 2], w, 2)
  {
    hide Resident, Access;
    assert [] + [0] == [0] && [0] + [w - 2] == [0, w - 2];
    ResidentNext([], 0, w, 1);
    ResidentNext([], 0, w, 2);
    ResidentNext([0], w - 2, w, 1);
    ResidentNext([0], w - 2, w, 2);
    TinyFirst(w, 1);
    TinyFirst(w, 2);
    TinySecond(w);
  }

  lemma TinyFirst(w: nat, cap: nat)
    requires 3 <= w < WORD32 && (cap == 1 || cap == 2)
    ensures Access(Resident([], w, cap), 0, w, cap) == if cap == 1 then [w - 1] else [w - 1, w - 2]
  {
    hide Access;
    MissOfNew([], 0, w, cap);
    Downwards(0, w);
    assert Reversed(Window(0, w)) + [] == Reversed(Window(0, w));
  }

  lemma TinySecond(w: nat)
    requires 3 <= w < WORD32
    ensures 2 * w - 3 in Access([w - 1], w - 2, w, 1) && 2 * w - 3 !in Access([w - 1, w - 2], w - 2, w, 2)
  {
    hide Minus, InstallAll, TouchAll, Window;
    var ps := Window(w - 2, w);
    Downwards(w - 2, w);
    assert ps[w - 1] == 2 * w - 3;
    assert Take(1, [w - 1]) == [w - 1];
    InstallAllIsTouchAll([w - 1], ps, 1);
    TouchNext([w - 1], ps);
  }

  /** Every page of the smaller cache is in the larger one, for every trace and every two capacities. */
  ghost predicate Inclusive(window: nat) {
    forall trace: seq<U64>, cap1: U32, cap2: U32, page: nat ::
      cap1 <= cap2 && page in Resident(trace, window, cap1) ==> page in Resident(trace, window, cap2)
  }

  /** A window of 0 is treated as 1. */
  lemma {:induction false} ZeroWindow(trace: seq<U64>, cap: nat)
    ensures Resident(trace, 0, cap) == Resident(trace, 1, cap)
    decreases |trace|
  {
    if trace == [] {
    } else {
      ZeroWindow(trace[..|trace| - 1], cap);
    }
  }

  /** Inclusion holds exactly for windows of at most one page; window and capacities are 32-bit numbers. */
  lemma InclusiveExactly(window: U32)
    ensures Inclusive(window) <==> window <= 1
  {
    hide Resident;
    if window <= 1 {
      forall trace: seq<U64>, cap1: U32, cap2: U32, page: nat
        | cap1 <= cap2 && page in Resident(trace, window, cap1)
        ensures page in Resident(trace, window, cap2)
      {
        StackInclusion(trace, cap1, cap2);
        ZeroWindow(trace, cap1);
        ZeroWindow(trace, cap2);
      }
    } else if window == 2 {
      PrefetchBreaksInclusion(2);
    } else {
      TinyCachesBreakInclusion(window);
    }
  }
}
