/**
 The resident set as the code keeps it: a linked list of nodes, whose order changes while the
 nodes stay, and an index that maps each page to its node.
 */
module LruCache {
  import opened Words
  import opened Lru

  /** The pages held by a list of nodes. */
  function PagesOf(order: seq<nat>, page: map<nat, nat>): (r: seq<nat>)
    requires forall n :: n in order ==> n in page
    ensures |r| == |order|
  {
    seq(|order|, i requires 0 <= i < |order| => page[order[i]])
  }

  /** Unlinking a node takes its page, and no other, out of the list of pages. */
  lemma {:induction false} Unlinked(order: seq<nat>, page: map<nat, nat>, n: nat)
    requires n in page && forall m :: m in order ==> m in page
    requires forall m :: m in order && page[m] == page[n] ==> m == n
    ensures PagesOf(Minus(order, n), page) == Minus(PagesOf(order, page), page[n])
  {
    if order == [] {
    } else {
      Unlinked(order[1..], page, n);
      assert PagesOf(order, page)[1..] == PagesOf(order[1..], page);
      if order[0] != n {
        assert Minus(order, n) == [order[0]] + Minus(order[1..], n);
        assert PagesOf(Minus(order, n), page) == [page[order[0]]] + PagesOf(Minus(order[1..], n), page);
      }
    }
  }

  lemma ConsDistinct(n: nat, s: seq<nat>)
    requires n !in s && Distinct(s)
    ensures Distinct([n] + s)
  {
    var t := [n] + s;
    forall i, j | 0 <= i < j < |t| ensures t[i] != t[j] {
      assert t[j] == s[j - 1];
    }
  }

  class Cache {
    var order: seq<nat>
    var page: map<nat, nat>
    var idx: map<nat, nat>
    var nextNode: nat

    /** List and index agree one to one, and no node or page occurs twice. */
    ghost predicate Valid()
      reads this
    {
      && Distinct(order)
      && (forall n :: n in order ==> n in page && n < nextNode)
      && (forall n :: n in order ==> page[n] in idx && idx[page[n]] == n)
      && (forall p :: p in idx ==> idx[p] in order && page[idx[p]] == p)
    }

    ghost function Pages(): seq<nat>
      requires Valid()
      reads this
    {
      PagesOf(order, page)
    }

    lemma PagesAreIndexed()
      requires Valid()
      ensures Distinct(Pages())
      ensures forall p :: p in idx <==> p in Pages()
    {
      forall i, j | 0 <= i < j < |order| ensures Pages()[i] != Pages()[j] {
        assert idx[page[order[i]]] == order[i] && idx[page[order[j]]] == order[j];
      }
      forall p | p in idx ensures p in Pages() {
        var i :| 0 <= i < |order| && order[i] == idx[p];
        assert Pages()[i] == p;
      }
    }

    constructor ()
      ensures Valid() && Pages() == []
    {
      order, page, idx, nextNode := [], map[], map[], 0;
    }

    /** splice(begin, node): the node moves to the front, its index entry stays good. */
    method Promote(node: nat)
      requires Valid() && node in order
      modifies this`order
      ensures Valid() && Pages() == Touch(old(Pages()), page[node])
    {
      hide Minus;
      MinusDistinct(order, node);
      Unlinked(order, page, node);
      order := [node] + Minus(order, node);
    }

    method ResidentHit(p: nat) returns (hit: bool)
      requires Valid()
      modifies this`order
      ensures Valid() && hit == (p in old(Pages()))
      ensures Pages() == if hit then Touch(old(Pages()), p) else old(Pages())
    {
      PagesAreIndexed();
      hit := p in idx;
      if hit {
        Promote(idx[p]);
      }
    }

    method PushFront(p: nat)
      requires Valid() && p !in idx
      modifies this
      ensures Valid() && Pages() == [p] + old(Pages())
    {
      ghost var was := Pages();
      page := page[nextNode := p];
      idx := idx[p := nextNode];
      order := [nextNode] + order;
      nextNode := nextNode + 1;
      ConsDistinct(old(nextNode), old(order));
      assert forall n :: n in order <==> n == old(nextNode) || n in old(order);
      assert PagesOf(order, page) == [p] + was;
    }

    /** pop_back, and the page it held leaves the index. */
    method EvictBack()
      requires Valid() && order != []
      modifies this`order, this`idx
      ensures Valid() && Pages() == old(Pages())[..|old(Pages())| - 1]
    {
      var last := order[|order| - 1];
      var evict := page[last];
      order := order[..|order| - 1];
      assert last !in order;
      idx := map p | p in idx && p != evict :: idx[p];
    }

    method ResidentInstall(first: U64, count: nat, cap: nat)
      requires Valid()
      modifies this
      ensures Valid() && Pages() == InstallAll(old(Pages()), Window(first, count), cap)
      ensures |old(Pages())| <= cap ==> |Pages()| <= cap
    {
      hide InstallOne, InstallAll;
      PagesAreIndexed();
      if |Pages()| <= cap {
        InstallAllKeeps(Pages(), Window(first, count), cap);
      }
      InstallNone(old(Pages()), cap);
      ghost var w := Window(first, count);
      var i := 0;
      while i < count
        invariant i <= count && Valid() && Pages() == InstallAll(old(Pages()), w[..i], cap)
      {
        var pg := (first + i) % WORD64;
        InstallNext(old(Pages()), w, i, cap);
        InstallPage(pg, cap);
        i := i + 1;
      }
      assert w[..count] == w;
    }

    method InstallPage(pg: nat, cap: nat)
      requires Valid()
      modifies this
      ensures Valid() && Pages() == InstallOne(old(Pages()), pg, cap)
    {
      PagesAreIndexed();
      if pg in idx {
        Promote(idx[pg]);
        return;
      }
      PushFront(pg);
      ghost var full := Pages();
      while |order| > cap
        invariant Valid() && |order| <= |full| && Pages() == full[..|order|]
        invariant |full| <= cap ==> |order| == |full|
        invariant |full| > cap ==> |order| >= cap
      {
        EvictBack();
      }
    }
  }

  lemma InstallNone(s: seq<nat>, cap: nat)
    ensures InstallAll(s, [], cap) == s
  {
  }

  lemma InstallNext(s: seq<nat>, ps: seq<nat>, i: nat, cap: nat)
    requires i < |ps|
    ensures InstallAll(s, ps[..i + 1], cap) == InstallOne(InstallAll(s, ps[..i], cap), ps[i], cap)
  {
    assert ps[..i + 1][..i] == ps[..i];
  }
}
