/**
 The per-JFC completion queues of the NIC, over slots of any type: jfc_cq_, the push with
 its bound of 256, and the slice-0 read that skips zero slots and pops.
 */
module JfcQueue {
  import opened Words

  const QUEUE_MAX: nat := 256
  const JFC_SLOTS: nat := 512

  type Queues<T> = map<U32, seq<T>>

  function Queue<T>(q: Queues<T>, jfc: U32): seq<T> { if jfc in q then q[jfc] else [] }

  /** push_back, and past 256 entries the oldest is dropped. */
  function Push<T>(q: Queues<T>, jfc: U32, x: T): Queues<T> {
    var longer := Queue(q, jfc) + [x];
    q[jfc := if |longer| > QUEUE_MAX then longer[1..] else longer]
  }

  /** What is left once leading zero slots are discarded. */
  function SkipZero<T>(q: seq<T>, zero: T -> bool): (r: seq<T>)
    ensures r != [] ==> !zero(r[0])
  {
    if q == [] || !zero(q[0]) then q else SkipZero(q[1..], zero)
  }

  datatype Popped<T> = Popped(queues: Queues<T>, slot: Option<T>)

  function Pop<T>(q: Queues<T>, jfc: U32, zero: T -> bool): (p: Popped<T>)
    ensures p.slot.Some? ==> !zero(p.slot.value)
  {
    var rest := SkipZero(Queue(q, jfc), zero);
    if rest == [] then Popped(q[jfc := []], None) else Popped(q[jfc := rest[1..]], Some(rest[0]))
  }

  // ---- runs of the channel ----

  /** The NIC completes to a JFC (the id as given), or the application polls one (the id masked). */
  datatype Event<T> = Arrive(jfc: U32, slot: T) | Poll(id: U32)

  function Masked(id: U32): U32 { id % JFC_SLOTS }

  function After<T>(es: seq<Event<T>>, zero: T -> bool): Queues<T> {
    if es == [] then map[]
    else
      var q := After(es[..|es| - 1], zero);
      match es[|es| - 1]
      case Arrive(j, x) => Push(q, j, x)
      case Poll(id) => Pop(q, Masked(id), zero).queues
  }

  function ArrivedFor<T>(es: seq<Event<T>>, jfc: U32): seq<T> {
    if es == [] then []
    else
      var sofar := ArrivedFor(es[..|es| - 1], jfc);
      match es[|es| - 1]
      case Arrive(j, x) => if j == jfc then sofar + [x] else sofar
      case Poll(_) => sofar
  }

  /** The slots that the polls of this id have returned, in order. */
  function PolledFrom<T>(es: seq<Event<T>>, id: U32, zero: T -> bool): seq<T> {
    if es == [] then []
    else
      var before := es[..|es| - 1];
      var sofar := PolledFrom(before, id, zero);
      match es[|es| - 1]
      case Arrive(_, _) => sofar
      case Poll(i) =>
        var got := Pop(After(before, zero), Masked(i), zero).slot;
        if i == id && got.Some? then sofar + [got.value] else sofar
  }

  /** How many completions for a JFC met a queue that already held 256. */
  ghost function Lost<T>(es: seq<Event<T>>, id: U32, zero: T -> bool): nat {
    if es == [] then 0
    else
      var before, last := es[..|es| - 1], es[|es| - 1];
      var full := last.Arrive? && last.jfc == id && |Queue(After(before, zero), id)| >= QUEUE_MAX;
      Lost(before, id, zero) + if full then 1 else 0
  }

  ghost predicate NoneZero<T>(es: seq<Event<T>>, zero: T -> bool) {
    forall i :: 0 <= i < |es| && es[i].Arrive? ==> !zero(es[i].slot)
  }

  /** A poll of another id that masks to this one, and finds something in its queue. */
  predicate Diverts<T>(q: Queues<T>, i: U32, id: U32, zero: T -> bool) {
    i != id && Masked(i) == id && Pop(q, id, zero).slot.Some?
  }

  /** How many slots of a JFC went to polls of another id. */
  ghost function Diverted<T>(es: seq<Event<T>>, id: U32, zero: T -> bool): nat {
    if es == [] then 0
    else
      var before, last := es[..|es| - 1], es[|es| - 1];
      Diverted(before, id, zero) + if last.Poll? && Diverts(After(before, zero), last.id, id, zero) then 1 else 0
  }

  lemma OtherUntouched<T>(q: Queues<T>, jfc: U32, zero: T -> bool, id: U32)
    requires id != jfc
    ensures Queue(Pop(q, jfc, zero).queues, id) == Queue(q, id)
  {
  }

  lemma PushBack<T>(q: Queues<T>, jfc: U32, x: T, id: U32)
    ensures var was, now := Queue(q, id), Queue(Push(q, jfc, x), id);
      if id != jfc then now == was
      else if |was| < QUEUE_MAX then now == was + [x]
      else now == was[1..] + [x]
  {
    if id == jfc && Queue(q, id) != [] {
      assert (Queue(q, id) + [x])[1..] == Queue(q, id)[1..] + [x];
    }
  }

  lemma PopFront<T>(q: Queues<T>, jfc: U32, zero: T -> bool)
    requires Queue(q, jfc) != [] ==> !zero(Queue(q, jfc)[0])
    ensures Queue(q, jfc) == [] ==> Pop(q, jfc, zero).slot == None && Queue(Pop(q, jfc, zero).queues, jfc) == []
    ensures Queue(q, jfc) != [] ==>
      && Pop(q, jfc, zero).slot == Some(Queue(q, jfc)[0])
      && Queue(Pop(q, jfc, zero).queues, jfc) == Queue(q, jfc)[1..]
  {
  }

  /** No queue ever holds an empty slot or more than 256. */
  lemma {:induction false} QueueShape<T>(es: seq<Event<T>>, id: U32, zero: T -> bool)
    requires NoneZero(es, zero)
    ensures var q := Queue(After(es, zero), id);
      |q| <= QUEUE_MAX && forall i :: 0 <= i < |q| ==> !zero(q[i])
    decreases |es|
  {
    hide Pop, Push, Queue, Masked;
    if es == [] {
      EmptyQueue<T>(id);
    } else {
      var before, last := es[..|es| - 1], es[|es| - 1];
      var all := After(before, zero);
      QueueShape(before, id, zero);
      match last
      case Arrive(j, x) => PushBack(all, j, x, id);
      case Poll(i) =>
        if Masked(i) == id {
          PopFront(all, id, zero);
        } else {
          OtherUntouched(all, Masked(i), zero, id);
        }
    }
  }

  lemma EmptyQueue<T>(id: U32)
    ensures Queue<T>(map[], id) == []
  {
  }

  lemma ArriveStep<T>(before: seq<Event<T>>, j: U32, x: T, id: U32, zero: T -> bool)
    ensures var es := before + [Arrive(j, x)];
      && PolledFrom(es, id, zero) == PolledFrom(before, id, zero)
      && After(es, zero) == Push(After(before, zero), j, x)
      && ArrivedFor(es, id) == ArrivedFor(before, id) + (if j == id then [x] else [])
      && Diverted(es, id, zero) == Diverted(before, id, zero)
      && Lost(es, id, zero)
         == Lost(before, id, zero) + (if j == id && |Queue(After(before, zero), id)| >= QUEUE_MAX then 1 else 0)
  {
    hide Push, Queue;
    var es := before + [Arrive(j, x)];
    assert es[..|before|] == before;
  }

  lemma PollTakes<T>(before: seq<Event<T>>, i: U32, id: U32, zero: T -> bool)
    ensures var es, popped := before + [Poll(i)], Pop(After(before, zero), Masked(i), zero);
      && After(es, zero) == popped.queues
      && PolledFrom(es, id, zero)
         == PolledFrom(before, id, zero) + (if i == id && popped.slot.Some? then [popped.slot.value] else [])
      && Diverted(es, id, zero)
         == Diverted(before, id, zero) + (if Diverts(After(before, zero), i, id, zero) then 1 else 0)
  {
    hide Pop, Diverts;
    var es := before + [Poll(i)];
    assert es[..|before|] == before;
  }

  lemma PollSame<T>(before: seq<Event<T>>, i: U32, id: U32, zero: T -> bool)
    ensures var es := before + [Poll(i)];
      ArrivedFor(es, id) == ArrivedFor(before, id) && Lost(es, id, zero) == Lost(before, id, zero)
  {
    hide After, Queue;
    var es := before + [Poll(i)];
    assert es[..|before|] == before;
  }

  /**
   One poll moves the front of the queue of its JFC to what was polled, or, if its id was masked,
   to the poller of the other id; it touches no other queue.
   */
  lemma PollStep<T>(before: seq<Event<T>>, i: U32, id: U32, zero: T -> bool)
    requires NoneZero(before, zero) && id < JFC_SLOTS
    ensures var es := before + [Poll(i)];
      var was := PolledFrom(before, id, zero) + Queue(After(before, zero), id);
      var now := PolledFrom(es, id, zero) + Queue(After(es, zero), id);
      && Diverted(before, id, zero) <= Diverted(es, id, zero)
      && (Diverted(es, id, zero) == Diverted(before, id, zero) ==> now == was)
      && |now| + Diverted(es, id, zero) == |was| + Diverted(before, id, zero)
  {
    hide Pop, Queue, After, PolledFrom, Diverted;
    var all, polled, q := After(before, zero), PolledFrom(before, id, zero), Queue(After(before, zero), id);
    PollTakes(before, i, id, zero);
    QueueShape(before, id, zero);
    if Masked(i) == id {
      PopFront(all, id, zero);
      if q != [] {
        assert polled + q == (polled + [q[0]]) + q[1..];
      }
    } else {
      OtherUntouched(all, Masked(i), zero, id);
    }
  }

  /**
   The slots polled from a JFC, followed by those still queued, are those that arrived for it, as
   long as none met a full queue and none went to a poll of another id: same order, none lost or
   repeated, none discarded by the zero-skip. In any case as many are missing as did either.
   */
  lemma {:induction false} ChannelIsFifo<T>(es: seq<Event<T>>, id: U32, zero: T -> bool)
    requires NoneZero(es, zero) && id < JFC_SLOTS
    ensures var got := PolledFrom(es, id, zero) + Queue(After(es, zero), id);
      && (Lost(es, id, zero) == 0 && Diverted(es, id, zero) == 0 ==> got == ArrivedFor(es, id))
      && |got| + Lost(es, id, zero) + Diverted(es, id, zero) == |ArrivedFor(es, id)|
    decreases |es|
  {
    hide Pop, Push, Queue, Lost, Diverted;
    if es == [] {
      NothingLost<T>(id, zero);
      EmptyQueue<T>(id);
    } else {
      hide After, PolledFrom, ArrivedFor;
      var before, last := es[..|es| - 1], es[|es| - 1];
      assert es == before + [last];
      ChannelIsFifo(before, id, zero);
      var polled, q := PolledFrom(before, id, zero), Queue(After(before, zero), id);
      match last
      case Arrive(j, x) =>
        ArriveStep(before, j, x, id, zero);
        PushBack(After(before, zero), j, x, id);
        assert polled + (q + [x]) == (polled + q) + [x];
      case Poll(i) =>
        PollStep(before, i, id, zero);
        PollSame(before, i, id, zero);
    }
  }

  lemma NothingLost<T>(id: U32, zero: T -> bool)
    ensures Lost<T>([], id, zero) == 0 && Diverted<T>([], id, zero) == 0
  {
  }

  /**
   What a JFC loses, exactly: polled followed by queued is what arrived for it if and only if no
   completion for it met a full queue and none went to a poll of another id.
   */
  lemma LosslessExactly<T>(es: seq<Event<T>>, id: U32, zero: T -> bool)
    requires NoneZero(es, zero) && id < JFC_SLOTS
    ensures PolledFrom(es, id, zero) + Queue(After(es, zero), id) == ArrivedFor(es, id)
      <==> Lost(es, id, zero) == 0 && Diverted(es, id, zero) == 0
  {
    hide Queue, Lost, Diverted;
    ChannelIsFifo(es, id, zero);
  }

  /** The last 256. */
  function Newest<T>(xs: seq<T>): seq<T> {
    if |xs| > QUEUE_MAX then xs[|xs| - QUEUE_MAX..] else xs
  }

  lemma NewestNext<T>(xs: seq<T>, x: T)
    ensures Newest(xs + [x]) == if |Newest(xs)| < QUEUE_MAX then Newest(xs) + [x] else Newest(xs)[1..] + [x]
    ensures |Newest(xs)| == if |xs| > QUEUE_MAX then QUEUE_MAX else |xs|
  {
  }

  /**
   The first of the two losses happens: completions for one JFC with no poll in between leave the
   last 256 of them.
   */
  lemma {:induction false} BurstLoses<T>(xs: seq<T>, id: U32, zero: T -> bool)
    ensures var es := Burst(xs, id);
      && ArrivedFor(es, id) == xs && PolledFrom(es, id, zero) == []
      && Lost(es, id, zero) == (if |xs| > 256 then |xs| - 256 else 0)
      && Queue(After(es, zero), id) == if |xs| > 256 then xs[|xs| - 256..] else xs
    decreases |xs|
  {
    hide Queue, Push, Diverted;
    if xs == [] {
      EmptyQueue<T>(id);
    } else {
      hide After, PolledFrom, ArrivedFor, Lost, Newest;
      var before, x := xs[..|xs| - 1], xs[|xs| - 1];
      assert Burst(xs, id) == Burst(before, id) + [Arrive(id, x)];
      BurstLoses(before, id, zero);
      ArriveStep(Burst(before, id), id, x, id, zero);
      PushBack(After(Burst(before, id), zero), id, x, id);
      assert before + [x] == xs;
      NewestNext(before, x);
    }
  }

  function Burst<T>(xs: seq<T>, id: U32): seq<Event<T>> {
    seq(|xs|, i requires 0 <= i < |xs| => Arrive(id, xs[i]))
  }

  /** The other one happens: a poll of an id of 512 or more takes the completion of the JFC it masks to. */
  lemma HighPollTakes<T>(x: T, id: U32, high: U32, zero: T -> bool)
    requires !zero(x) && high >= 512 && high % 512 == id
    ensures var es := [Arrive(id, x), Poll(high)];
      && PolledFrom(es, high, zero) == [x] && PolledFrom(es, id, zero) == [] && Queue(After(es, zero), id) == []
      && Lost(es, id, zero) == 0 && Diverted(es, id, zero) == 1 && ArrivedFor(es, id) == [x]
  {
    hide Pop, Push, Queue, After, PolledFrom, ArrivedFor, Lost, Diverted;
    NothingLost<T>(id, zero);
    EmptyQueue<T>(id);
    Nothing<T>(id, zero);
    Nothing<T>(high, zero);
    assert [] + [Arrive(id, x)] == [Arrive(id, x)] && [Arrive(id, x)] + [Poll(high)] == [Arrive(id, x), Poll(high)];
    ArriveStep([], id, x, id, zero);
    ArriveStep([], id, x, high, zero);
    PushBack(map[], id, x, id);
    PopFront(After([Arrive(id, x)], zero), id, zero);
    PollTakes([Arrive(id, x)], high, id, zero);
    PollTakes([Arrive(id, x)], high, high, zero);
    PollSame([Arrive(id, x)], high, id, zero);
  }

  lemma Nothing<T>(id: U32, zero: T -> bool)
    ensures After<T>([], zero) == map[] && PolledFrom<T>([], id, zero) == [] && ArrivedFor<T>([], id) == []
  {
  }

  /**
   Ids from 512 on are pushed as given but polled masked: nothing they receive is ever polled. All
   of it stays queued, up to the last 256.
   */
  lemma {:induction false} HighIdIsNeverPolled<T>(es: seq<Event<T>>, id: U32, zero: T -> bool)
    requires id >= JFC_SLOTS
    ensures Queue(After(es, zero), id) == Newest(ArrivedFor(es, id))
    decreases |es|
  {
    hide Pop, Push, Queue, Lost, Diverted, Diverts;
    if es == [] {
      EmptyQueue<T>(id);
    } else {
      hide After, ArrivedFor, PolledFrom, Newest;
      var before, last := es[..|es| - 1], es[|es| - 1];
      assert es == before + [last];
      HighIdIsNeverPolled(before, id, zero);
      match last
      case Arrive(j, x) =>
        ArriveStep(before, j, x, id, zero);
        PushBack(After(before, zero), j, x, id);
        NewestNext(ArrivedFor(before, id), x);
      case Poll(i) =>
        PollSame(before, i, id, zero);
        PollTakes(before, i, id, zero);
        OtherUntouched(After(before, zero), Masked(i), zero, id);
    }
  }

  // ---- the poll loop ----

  function PushAll<T>(q: Queues<T>, arrivals: seq<(U32, T)>): Queues<T>
    decreases |arrivals|
  {
    if arrivals == [] then q else PushAll(Push(q, arrivals[0].0, arrivals[0].1), arrivals[1..])
  }

  datatype Batch<T> = Batch(queues: Queues<T>, slots: seq<T>)

  /** Up to n pops; drains(i) is what the peer ring delivers before the i-th of them. */
  function PollUpTo<T>(q: Queues<T>, jfc: U32, n: nat, drains: nat -> seq<(U32, T)>, zero: T -> bool, i: nat): Batch<T>
    decreases n
  {
    if n == 0 then Batch(q, [])
    else
      var p := Pop(PushAll(q, drains(i)), jfc, zero);
      match p.slot
      case None => Batch(p.queues, [])
      case Some(x) =>
        var rest := PollUpTo(p.queues, jfc, n - 1, drains, zero, i + 1);
        Batch(rest.queues, [x] + rest.slots)
  }

  /** The completion-queue side of the NIC. */
  class CqDevice<T> {
    var queues: Queues<T>
    const zero: T -> bool

    constructor (zero: T -> bool)
      ensures queues == map[] && this.zero == zero
    {
      this.queues := map[];
      this.zero := zero;
    }

    method PushSlot(jfc: U32, x: T)
      modifies this`queues
      ensures queues == Push(old(queues), jfc, x)
    {
      var q := Queue(queues, jfc) + [x];
      if |q| > QUEUE_MAX {
        q := q[1..];
      }
      queues := queues[jfc := q];
    }

    /** The read of slice 0: drain the peer ring, skip zero slots, pop. */
    method ReadSlice0(jfc: U32, drain: seq<(U32, T)>) returns (slot: Option<T>)
      modifies this`queues
      ensures Popped(queues, slot) == Pop(PushAll(old(queues), drain), jfc, zero)
    {
      var left := drain;
      while left != []
        invariant PushAll(old(queues), drain) == PushAll(queues, left)
        decreases |left|
      {
        PushSlot(left[0].0, left[0].1);
        left := left[1..];
      }
      var q := Queue(queues, jfc);
      while q != [] && zero(q[0])
        invariant SkipZero(Queue(queues, jfc), zero) == SkipZero(q, zero)
        decreases |q|
      {
        q := q[1..];
      }
      if q == [] {
        queues := queues[jfc := []];
        return None;
      }
      slot := Some(q[0]);
      queues := queues[jfc := q[1..]];
    }

    method PollJfc(id: U32, cnt: nat, drains: nat -> seq<(U32, T)>) returns (slots: seq<T>)
      modifies this`queues
      ensures Batch(queues, slots) == PollUpTo(old(queues), Masked(id), cnt, drains, zero, 0)
    {
      hide Pop, PushAll;
      slots := [];
      var n, jfc := 0, Masked(id);
      ghost var whole := PollUpTo(queues, jfc, cnt, drains, zero, 0);
      assert [] + whole.slots == whole.slots;
      while n < cnt
        invariant 0 <= n <= cnt
        invariant whole.queues == PollUpTo(queues, jfc, cnt - n, drains, zero, n).queues
        invariant whole.slots == slots + PollUpTo(queues, jfc, cnt - n, drains, zero, n).slots
      {
        ghost var had, rest := slots, PollUpTo(queues, jfc, cnt - n, drains, zero, n);
        var got := ReadSlice0(jfc, drains(n));
        if got.None? {
          assert had + [] == had;
          return;
        }
        slots := slots + [got.value];
        n := n + 1;
        assert had + rest.slots == slots + rest.slots[1..];
      }
      assert slots + [] == slots;
    }
  }
}
