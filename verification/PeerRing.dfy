/**
 The cross-process ring of 64 slots (peer_send, peer_ring_drain): one producer, one consumer,
 32-bit head and tail counters that wrap, slots written and read byte by byte. Steps of the
 two processes interleave freely; the barriers of the source order them as listed.
 */
module PeerRing {
  import opened Words
  import opened PeerPacket

  const SLOTS: nat := 64

  /** A slot image as peer_send stores it: a length prefix and the packet of that length. */
  predicate IsImage(img: seq<Byte>) {
    4 + HEADER <= |img| <= SLOT && Get32(img, 0) == |img| - 4
  }

  function Image(p: Pkt): (img: seq<Byte>)
    requires |p.payload| <= MAX_PAYLOAD
    ensures IsImage(img) && img[4..] == Encode(p)
  {
    var img := Le(4, HEADER + |p.payload|) + Encode(p);
    assert img[0..4] == Le(4, HEADER + |p.payload|);
    Get32Back(img, 0, HEADER + |p.payload|);
    img
  }

  datatype Producer = Quiet | Storing(img: seq<Byte>, at: nat)
  datatype Consumer = Waiting | Reading(got: seq<Byte>)

  /** sent and applied are the histories of published and of handed-over packets. */
  datatype Ring = Ring(slots: seq<seq<Byte>>, head: U32, tail: U32,
                       producer: Producer, consumer: Consumer,
                       sent: seq<seq<Byte>>, applied: seq<seq<Byte>>)

  predicate Shaped(s: Ring) {
    && |s.slots| == SLOTS
    && (forall i :: 0 <= i < SLOTS ==> |s.slots[i]| == SLOT)
    && (forall i :: 0 <= i < |s.sent| ==> IsImage(s.sent[i]))
    && (s.producer.Storing? ==> IsImage(s.producer.img))
  }

  function Bump(c: U32): U32 { (c + 1) % WORD32 }

  /** Packets between tail and head, as 32-bit counters give it. */
  function Unread(s: Ring): nat { (s.head - s.tail) % WORD32 }

  ghost predicate Init(s: Ring) {
    Shaped(s) && s.head == 0 && s.tail == 0 && s.producer == Quiet && s.consumer == Waiting
    && s.sent == [] && s.applied == []
  }

  datatype Step = SendStart(img: seq<Byte>) | SendByte | Publish | RecvStart | RecvByte | RecvDone

  /** The prefix of the slot that the consumer needs before it can finish: length, then packet. */
  function Wanted(got: seq<Byte>): nat {
    if |got| < 4 then 4
    else
      var plen := Get32(got, 0);
      if HEADER <= plen <= SLOT - 4 then 4 + plen else 4
  }

  ghost predicate Enabled(s: Ring, step: Step)
    requires Shaped(s)
  {
    match step
    case SendStart(img) => s.producer == Quiet && IsImage(img)
    case SendByte => s.producer.Storing? && s.producer.at < |s.producer.img|
    case Publish => s.producer.Storing? && s.producer.at == |s.producer.img|
    case RecvStart => s.consumer == Waiting && s.tail != s.head
    case RecvByte => s.consumer.Reading? && |s.consumer.got| < Wanted(s.consumer.got) && |s.consumer.got| < SLOT
    case RecvDone => s.consumer.Reading? && |s.consumer.got| == Wanted(s.consumer.got)
  }

  ghost function Apply(s: Ring, step: Step): (s': Ring)
    requires Shaped(s) && Enabled(s, step)
    ensures Shaped(s')
  {
    match step
    case SendStart(img) => s.(producer := Storing(img, 0))
    case SendByte =>
      var i, at := s.head % SLOTS, s.producer.at;
      s.(slots := s.slots[i := s.slots[i][at := s.producer.img[at]]],
         producer := Storing(s.producer.img, at + 1))
    case Publish => s.(head := Bump(s.head), producer := Quiet, sent := s.sent + [s.producer.img])
    case RecvStart => s.(consumer := Reading([]))
    case RecvByte =>
      var got := s.consumer.got;
      s.(consumer := Reading(got + [s.slots[s.tail % SLOTS][|got|]]))
    case RecvDone =>
      var got := s.consumer.got;
      s.(tail := Bump(s.tail), consumer := Waiting,
         applied := if |got| > 4 then s.applied + [got[4..]] else s.applied)
  }

  /** The sender's obligation: the code itself never checks for a full ring. */
  ghost predicate Guarded(s: Ring, step: Step) {
    step.SendStart? ==> Unread(s) < SLOTS
  }

  /** Slot k % 64 begins with the image. */
  ghost predicate Holds(s: Ring, k: nat, img: seq<Byte>)
    requires Shaped(s)
  {
    img <= s.slots[k % SLOTS]
  }

  ghost predicate Inv(s: Ring) {
    && Shaped(s)
    && |s.applied| <= |s.sent| <= |s.applied| + SLOTS
    && s.head == |s.sent| % WORD32 && s.tail == |s.applied| % WORD32
    && (forall k :: 0 <= k < |s.applied| ==> s.applied[k] == s.sent[k][4..])
    && (forall k :: |s.applied| <= k < |s.sent| ==> Holds(s, k, s.sent[k]))
    && (s.producer.Storing? ==>
          && |s.sent| < |s.applied| + SLOTS
          && s.producer.at <= |s.producer.img|
          && s.slots[|s.sent| % SLOTS][..s.producer.at] == s.producer.img[..s.producer.at])
    && (s.consumer.Reading? ==> |s.applied| < |s.sent| && s.consumer.got <= s.sent[|s.applied|])
  }

  // ---- the counters ----

  lemma CounterSlot(n: nat)
    ensures n % WORD32 % SLOTS == n % SLOTS
  {
    assert WORD32 == SLOTS * 0x400_0000;
    var q := n / WORD32;
    assert n == SLOTS * (0x400_0000 * q) + n % WORD32;
  }

  lemma CounterDistance(h: nat, t: nat)
    requires t <= h <= t + SLOTS
    ensures (h % WORD32 - t % WORD32) % WORD32 == h - t
    ensures h % WORD32 == t % WORD32 <==> h == t
  {
  }

  /** What the 32-bit counters of a ring stand for. */
  lemma Counters(s: Ring)
    requires Inv(s)
    ensures Unread(s) == |s.sent| - |s.applied|
    ensures s.head % SLOTS == |s.sent| % SLOTS && s.tail % SLOTS == |s.applied| % SLOTS
  {
    hide Shaped, Holds;
    CounterDistance(|s.sent|, |s.applied|);
    CounterSlot(|s.sent|);
    CounterSlot(|s.applied|);
  }

  lemma CounterBump(n: nat)
    ensures Bump(n % WORD32) == (n + 1) % WORD32
  {
  }

  // ---- what the consumer reads ----

  lemma ImagePrefix(img: seq<Byte>, got: seq<Byte>)
    requires IsImage(img) && got <= img
    ensures |got| < 4 ==> Wanted(got) == 4
    ensures |got| >= 4 ==> Wanted(got) == |img|
  {
    if |got| >= 4 {
      assert got[0..4] == img[0..4];
    }
  }

  // ---- every step keeps the invariant ----

  lemma SlotsDiffer(k: nat, h: nat)
    requires k < h < k + SLOTS
    ensures k % SLOTS != h % SLOTS
  {
  }

  lemma SendByteKeepsInv(s: Ring)
    requires Inv(s) && Enabled(s, SendByte)
    ensures Inv(Apply(s, SendByte))
  {
    assert |s.producer.img| <= SLOT;
    hide IsImage;
    var s' := Apply(s, SendByte);
    var h, at, img := |s.sent|, s.producer.at, s.producer.img;
    CounterSlot(h);
    forall k | |s.applied| <= k < h ensures Holds(s', k, s'.sent[k]) {
      SlotsDiffer(k, h);
      assert Holds(s, k, s.sent[k]);
    }
    var slot, slot' := s.slots[h % SLOTS], s'.slots[h % SLOTS];
    assert slot'[..at + 1] == slot[..at] + [img[at]];
    assert img[..at + 1] == img[..at] + [img[at]];
  }

  lemma PublishKeepsInv(s: Ring)
    requires Inv(s) && Enabled(s, Publish)
    ensures Inv(Apply(s, Publish))
  {
    var s' := Apply(s, Publish);
    var h, img := |s.sent|, s.producer.img;
    CounterBump(h);
    assert img[..|img|] == img;
    forall k | |s.applied| <= k < |s'.sent| ensures Holds(s', k, s'.sent[k]) {
      if k < h {
        assert Holds(s, k, s.sent[k]);
      }
    }
  }

  lemma RecvByteKeepsInv(s: Ring)
    requires Inv(s) && Enabled(s, RecvByte)
    ensures Inv(Apply(s, RecvByte))
  {
    var t, got := |s.applied|, s.consumer.got;
    CounterSlot(t);
    ImagePrefix(s.sent[t], got);
    assert Holds(s, t, s.sent[t]);
  }

  lemma RecvDoneKeepsInv(s: Ring)
    requires Inv(s) && Enabled(s, RecvDone)
    ensures Inv(Apply(s, RecvDone))
    ensures Apply(s, RecvDone).applied == s.applied + [s.sent[|s.applied|][4..]]
  {
    var s' := Apply(s, RecvDone);
    var t, got := |s.applied|, s.consumer.got;
    ImagePrefix(s.sent[t], got);
    assert got == s.sent[t];
    CounterBump(t);
    forall k | |s'.applied| <= k < |s'.sent| ensures Holds(s', k, s'.sent[k]) {
      assert Holds(s, k, s.sent[k]);
    }
  }

  lemma StepKeepsInv(s: Ring, step: Step)
    requires Inv(s) && Enabled(s, step) && Guarded(s, step)
    ensures Inv(Apply(s, step))
  {
    CounterDistance(|s.sent|, |s.applied|);
    match step
    case SendStart(_) => StartKeepsInv(s, step);
    case SendByte => SendByteKeepsInv(s);
    case Publish => PublishKeepsInv(s);
    case RecvStart => StartKeepsInv(s, step);
    case RecvByte => RecvByteKeepsInv(s);
    case RecvDone => RecvDoneKeepsInv(s);
  }

  lemma StartKeepsInv(s: Ring, step: Step)
    requires Inv(s) && Enabled(s, step) && (step.SendStart? || step.RecvStart?)
    requires step.SendStart? ==> |s.sent| < |s.applied| + SLOTS
    requires step.RecvStart? ==> |s.applied| < |s.sent|
    ensures Inv(Apply(s, step))
  {
    var s' := Apply(s, step);
    forall k | |s.applied| <= k < |s.sent| ensures Holds(s', k, s'.sent[k]) {
      assert Holds(s, k, s.sent[k]);
    }
  }

  // ---- whole runs ----

  /** The states of an interleaving of producer and consumer steps, every send guarded. */
  ghost predicate IsRun(states: seq<Ring>, steps: seq<Step>) {
    && |states| == |steps| + 1
    && Init(states[0])
    && (forall i :: 0 <= i < |states| ==> Shaped(states[i]))
    && (forall i :: 0 <= i < |steps| ==>
          Enabled(states[i], steps[i]) && Guarded(states[i], steps[i])
          && states[i + 1] == Apply(states[i], steps[i]))
  }

  lemma {:induction false} RunKeepsInv(states: seq<Ring>, steps: seq<Step>, n: nat)
    requires IsRun(states, steps) && n < |states|
    ensures Inv(states[n])
  {
    if n == 0 {
    } else {
      RunKeepsInv(states, steps, n - 1);
      assert Enabled(states[n - 1], steps[n - 1]);
      StepKeepsInv(states[n - 1], steps[n - 1]);
    }
  }

  /**
   In every state of every guarded interleaving the packets handed over are, byte for byte, a
   prefix of the packets sent; the slot being stored to is never the slot being read.
   */
  lemma RingSafety(states: seq<Ring>, steps: seq<Step>, n: nat)
    requires IsRun(states, steps) && n < |states|
    ensures
      var s := states[n];
      && |s.applied| <= |s.sent|
      && (forall k :: 0 <= k < |s.applied| ==>
            IsImage(s.sent[k]) && s.applied[k] == s.sent[k][4..])
      && (s.producer.Storing? && s.consumer.Reading? ==> s.head % SLOTS != s.tail % SLOTS)
  {
    hide IsRun, Holds;
    RunKeepsInv(states, steps, n);
    var s := states[n];
    Counters(s);
    if s.producer.Storing? && s.consumer.Reading? {
      SlotsDiffer(|s.applied|, |s.sent|);
    }
  }

  /** Neither side is ever stuck: what is sent can be published, and what is unread can be read. */
  lemma NeverStuck(s: Ring)
    requires Inv(s)
    ensures s.producer.Storing? ==> Enabled(s, SendByte) || Enabled(s, Publish)
    ensures s.consumer.Reading? ==> Enabled(s, RecvByte) || Enabled(s, RecvDone)
    ensures s.consumer == Waiting ==> (Enabled(s, RecvStart) <==> |s.applied| < |s.sent|)
  {
    hide Holds;
    CounterDistance(|s.sent|, |s.applied|);
    if s.consumer.Reading? {
      ImagePrefix(s.sent[|s.applied|], s.consumer.got);
    }
  }

  // ---- the guard is exactly what is needed ----

  /**
   In every reachable state, the slot the next send stores to holds no unread packet if and only if
   the 32-bit counters show fewer than 64 unread.
   */
  lemma FreshSlotExactly(s: Ring)
    requires Inv(s)
    ensures (forall k :: |s.applied| <= k < |s.sent| ==> k % SLOTS != s.head % SLOTS) <==> Unread(s) < SLOTS
  {
    hide Shaped, Holds, Unread;
    Counters(s);
    FreshSlot(|s.sent|, |s.applied|);
  }

  lemma FreshSlot(h: nat, t: nat)
    requires t <= h <= t + SLOTS
    ensures (forall k :: t <= k < h ==> k % SLOTS != h % SLOTS) <==> h < t + SLOTS
  {
    if h == t + SLOTS {
      assert t % SLOTS == h % SLOTS;
    } else {
      forall k | t <= k < h ensures k % SLOTS != h % SLOTS {
        SlotsDiffer(k, h);
      }
    }
  }

  /** Without the guard: a send into a ring of 64 unread packets stores over the oldest one. */
  lemma UnguardedSendOverwrites(s: Ring, img: seq<Byte>)
    requires Inv(s) && Unread(s) == SLOTS && s.producer == Quiet && IsImage(img)
    requires img[0] != s.slots[s.tail % SLOTS][0]
    ensures
      var t := |s.applied|;
      && t < |s.sent| && Holds(s, t, s.sent[t])
      && !Holds(Apply(Apply(s, SendStart(img)), SendByte), t, s.sent[t])
  {
    hide Unread, Apply, Enabled;
    Counters(s);
    var t := |s.applied|;
    WholeTurn(t);
    assert Holds(s, t, s.sent[t]) && IsImage(s.sent[t]);
    FirstByteOverwrites(s, img, t, s.sent[t]);
  }

  lemma WholeTurn(t: nat)
    ensures (t + SLOTS) % SLOTS == t % SLOTS
  {
  }

  lemma FirstByteOverwrites(s: Ring, img: seq<Byte>, t: nat, oldest: seq<Byte>)
    requires Shaped(s) && s.producer == Quiet && IsImage(img) && IsImage(oldest) && Holds(s, t, oldest)
    requires s.head % SLOTS == t % SLOTS && img[0] != s.slots[t % SLOTS][0]
    ensures !Holds(Apply(Apply(s, SendStart(img)), SendByte), t, oldest)
  {
  }

  /** A guarded run goes on with any enabled and guarded step. */
  lemma Extended(states: seq<Ring>, steps: seq<Step>, step: Step)
    requires IsRun(states, steps) && Enabled(states[|steps|], step) && Guarded(states[|steps|], step)
    ensures IsRun(states + [Apply(states[|steps|], step)], steps + [step])
  {
    hide Enabled, Guarded, Apply, Init, Shaped;
    var ss, ts := states + [Apply(states[|steps|], step)], steps + [step];
    forall i | 0 <= i < |ts|
      ensures Enabled(ss[i], ts[i]) && Guarded(ss[i], ts[i]) && ss[i + 1] == Apply(ss[i], ts[i])
    {
      if i < |steps| {
        assert ss[i] == states[i] && ts[i] == steps[i] && ss[i + 1] == states[i + 1];
      }
    }
  }

  /** The producer stores the rest of an image, byte by byte. */
  lemma {:induction false} StoreRest(states: seq<Ring>, steps: seq<Step>) returns (states': seq<Ring>, steps': seq<Step>)
    requires IsRun(states, steps) && states[|steps|].producer.Storing?
    requires states[|steps|].producer.at <= |states[|steps|].producer.img|
    ensures IsRun(states', steps')
    ensures var s, s' := states[|steps|], states'[|steps'|];
      && s'.producer == Storing(s.producer.img, |s.producer.img|) && s'.consumer == s.consumer
      && s'.sent == s.sent && s'.applied == s.applied
    decreases |states[|steps|].producer.img| - states[|steps|].producer.at
  {
    var s := states[|steps|];
    states', steps' := states, steps;
    if s.producer.at < |s.producer.img| {
      Extended(states, steps, SendByte);
      hide IsRun;
      states', steps' := StoreRest(states + [Apply(s, SendByte)], steps + [SendByte]);
    }
  }

  /** One whole send into a ring with room. */
  lemma SendOne(states: seq<Ring>, steps: seq<Step>, img: seq<Byte>) returns (states': seq<Ring>, steps': seq<Step>)
    requires IsRun(states, steps) && IsImage(img)
    requires var s := states[|steps|]; s.producer == Quiet && |s.sent| < |s.applied| + SLOTS
    ensures IsRun(states', steps')
    ensures var s, s' := states[|steps|], states'[|steps'|];
      s'.producer == Quiet && s'.consumer == s.consumer && s'.sent == s.sent + [img] && s'.applied == s.applied
  {
    var s := states[|steps|];
    RunKeepsInv(states, steps, |steps|);
    CounterDistance(|s.sent|, |s.applied|);
    Extended(states, steps, SendStart(img));
    hide IsImage;
    states', steps' := StoreRest(states + [Apply(s, SendStart(img))], steps + [SendStart(img)]);
    Extended(states', steps', Publish);
    var s1 := states'[|steps'|];
    states', steps' := states' + [Apply(s1, Publish)], steps' + [Publish];
  }

  /** Any number of packets up to 64, none of them read. */
  lemma {:induction false} Fill(init: Ring, img: seq<Byte>, count: nat) returns (states: seq<Ring>, steps: seq<Step>)
    requires Init(init) && IsImage(img) && count <= SLOTS
    ensures IsRun(states, steps)
    ensures var s := states[|steps|];
      && s.producer == Quiet && s.consumer == Waiting && |s.sent| == count && s.applied == []
      && forall k :: 0 <= k < count ==> s.sent[k] == img
    decreases count
  {
    if count == 0 {
      states, steps := [init], [];
    } else {
      states, steps := Fill(init, img, count - 1);
      hide IsRun, IsImage;
      states, steps := SendOne(states, steps, img);
    }
  }

  /** The guard can come to fail: a run of 64 sends after which one more send destroys an unread packet. */
  lemma OverwriteIsReachable(init: Ring, p: Pkt, q: Pkt) returns (states: seq<Ring>, steps: seq<Step>)
    requires Init(init) && |p.payload| <= MAX_PAYLOAD && |q.payload| <= MAX_PAYLOAD && Image(p)[0] != Image(q)[0]
    ensures IsRun(states, steps)
    ensures var s := states[|steps|];
      && s.producer == Quiet && Unread(s) == SLOTS && |s.sent| == SLOTS && s.applied == []
      && s.sent[0] == Image(p) && Holds(s, 0, Image(p))
      && !Holds(Apply(Apply(s, SendStart(Image(q))), SendByte), 0, Image(p))
  {
    states, steps := Fill(init, Image(p), SLOTS);
    RunKeepsInv(states, steps, |steps|);
    hide IsRun, Image;
    var s := states[|steps|];
    CounterDistance(SLOTS, 0);
    assert Holds(s, 0, s.sent[0]);
    UnguardedSendOverwrites(s, Image(q));
  }
}
