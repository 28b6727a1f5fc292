/**
 The deferred wire of the RoCE topology: flits emitted while another is being consumed are queued
 and delivered later, in order, by a pump that never runs inside itself.
 */
module WirePump {
  const GUARD := 100000

  /** What the consumer of a flit does while it consumes it. */
  datatype Action<F> = Emit(flit: F) | Pump

  function Emits<F>(acts: seq<Action<F>>): seq<F> {
    if acts == [] then []
    else (if acts[0].Emit? then [acts[0].flit] else []) + Emits(acts[1..])
  }

  datatype Wire<F> = Wire(pending: seq<F>, delivered: seq<F>)

  /** The reference: deliver the oldest flit, queue what its consumption emits, up to `guard` times. */
  function Pumped<F>(w: Wire<F>, respond: seq<F> -> seq<Action<F>>, guard: nat): Wire<F>
    decreases guard
  {
    if w.pending == [] || guard == 0 then w
    else
      var delivered := w.delivered + [w.pending[0]];
      Pumped(Wire(w.pending[1..] + Emits(respond(delivered)), delivered), respond, guard - 1)
  }

  lemma PumpedStep<F>(w: Wire<F>, respond: seq<F> -> seq<Action<F>>, guard: nat)
    requires w.pending != [] && guard > 0
    ensures var d := w.delivered + [w.pending[0]];
      Pumped(w, respond, guard) == Pumped(Wire(w.pending[1..] + Emits(respond(d)), d), respond, guard - 1)
  {
  }

  lemma PumpedEnd<F>(w: Wire<F>, respond: seq<F> -> seq<Action<F>>, guard: nat)
    requires w.pending == [] || guard == 0
    ensures Pumped(w, respond, guard) == w
  {
  }

  /** What was emitted by the deliveries after the first n, in order. */
  function Caused<F>(delivered: seq<F>, respond: seq<F> -> seq<Action<F>>, n: nat): seq<F>
    decreases |delivered|
  {
    if |delivered| <= n then []
    else Caused(delivered[..|delivered| - 1], respond, n) + Emits(respond(delivered))
  }

  lemma {:induction false} CausedSplit<F>(d: seq<F>, respond: seq<F> -> seq<Action<F>>, n: nat, m: nat)
    requires n <= m <= |d|
    ensures Caused(d, respond, n) == Caused(d[..m], respond, n) + Caused(d, respond, m)
    decreases |d|
  {
    if m < |d| {
      CausedSplit(d[..|d| - 1], respond, n, m);
      assert d[..|d| - 1][..m] == d[..m];
    } else {
      assert d[..m] == d;
    }
  }

  /**
   One pump: nothing is lost, repeated or reordered, however the consumer emits; it makes at most
   `guard` deliveries, and it leaves flits queued only if it made them all.
   */
  lemma {:induction false} PumpKeepsOrder<F>(w: Wire<F>, respond: seq<F> -> seq<Action<F>>, guard: nat)
    ensures var w' := Pumped(w, respond, guard);
      && w.delivered <= w'.delivered
      && w'.delivered + w'.pending == w.delivered + w.pending + Caused(w'.delivered, respond, |w.delivered|)
      && |w'.delivered| <= |w.delivered| + guard
      && (w'.pending != [] ==> |w'.delivered| == |w.delivered| + guard)
    decreases guard
  {
    hide Pumped, Emits, Caused;
    if w.pending != [] && guard > 0 {
      var d := w.delivered + [w.pending[0]];
      var e := Emits(respond(d));
      var w1 := Wire(w.pending[1..] + e, d);
      PumpKeepsOrder(w1, respond, guard - 1);
      PumpedStep(w, respond, guard);
      CausedOnce(w.delivered, w.pending[0], respond);
      var w' := Pumped(w, respond, guard);
      var c := Caused(w'.delivered, respond, |d|);
      CausedSplit(w'.delivered, respond, |w.delivered|, |d|);
      assert w'.delivered[..|d|] == d;
      Regroup(w.delivered, w.pending, e, c);
    } else {
      PumpedEnd(w, respond, guard);
      CausedNone(w.delivered, respond);
      assert w.delivered + w.pending + [] == w.delivered + w.pending;
    }
  }

  lemma Regroup<F>(d: seq<F>, p: seq<F>, e: seq<F>, c: seq<F>)
    requires p != []
    ensures (d + [p[0]]) + (p[1..] + e) + c == d + p + (e + c)
  {
  }

  lemma CausedNone<F>(d: seq<F>, respond: seq<F> -> seq<Action<F>>)
    ensures Caused(d, respond, |d|) == []
  {
  }

  lemma CausedOnce<F>(d: seq<F>, f: F, respond: seq<F> -> seq<Action<F>>)
    ensures Caused(d + [f], respond, |d|) == Emits(respond(d + [f]))
  {
    assert (d + [f])[..|d|] == d;
    assert Caused(d, respond, |d|) == [];
  }

  class Topology<F> {
    var pending: seq<F>
    var pumping: bool
    ghost var emitted: seq<F>
    var delivered: seq<F>
    ghost var inside: bool

    /** Flits delivered followed by flits queued are the flits emitted; a delivery runs only in a pump. */
    ghost predicate Valid()
      reads this
    {
      delivered + pending == emitted && (inside ==> pumping)
    }

    constructor ()
      ensures Valid() && pending == [] && !pumping && emitted == [] && !inside
    {
      pending, pumping, emitted, delivered, inside := [], false, [], [], false;
    }

    /** wire_tx_tap_b: queue, never deliver. */
    method Tap(flit: F)
      requires Valid()
      modifies this`pending, this`emitted
      ensures Valid() && pending == old(pending) + [flit] && emitted == old(emitted) + [flit]
    {
      pending := pending + [flit];
      emitted := emitted + [flit];
    }

    /** The consumer's side of one delivery; it may emit, and it may call the pump again. */
    method Consume(acts: seq<Action<F>>, respond: seq<F> -> seq<Action<F>>)
      requires Valid() && pumping && inside
      modifies this
      ensures Valid() && pumping && inside && delivered == old(delivered)
      ensures pending == old(pending) + Emits(acts) && old(emitted) <= emitted
      decreases 1, |acts|
    {
      hide Pumped;
      if acts == [] {
        assert pending + [] == pending;
        return;
      }
      ghost var first := if acts[0].Emit? then [acts[0].flit] else [];
      assert pending + (first + Emits(acts[1..])) == pending + first + Emits(acts[1..]);
      assert pending + [] == pending;
      if acts[0].Emit? {
        Tap(acts[0].flit);
      } else {
        PumpWire(respond);
      }
      Consume(acts[1..], respond);
    }

    /** pump_wire: a call from inside a delivery returns at once; otherwise the queue is drained. */
    method PumpWire(respond: seq<F> -> seq<Action<F>>)
      requires Valid() && (pumping <==> inside)
      modifies this
      ensures Valid() && pumping == old(pumping) && inside == old(inside) && old(emitted) <= emitted
      ensures old(pumping) ==> pending == old(pending) && delivered == old(delivered)
      ensures !old(pumping) ==> Wire(pending, delivered) == Pumped(Wire(old(pending), old(delivered)), respond, GUARD)
      decreases if pumping then 0 else 2, 0
    {
      hide Pumped, Emits;
      if pumping {
        return;
      }
      pumping := true;
      var guard := 0;
      while pending != [] && guard < GUARD
        invariant 0 <= guard <= GUARD && Valid() && pumping && !inside && old(emitted) <= emitted
        invariant Pumped(Wire(pending, delivered), respond, GUARD - guard)
               == Pumped(Wire(old(pending), old(delivered)), respond, GUARD)
        decreases GUARD - guard
      {
        PumpedStep(Wire(pending, delivered), respond, GUARD - guard);
        assert delivered + pending == delivered + [pending[0]] + pending[1..];
        guard := guard + 1;
        var flit := pending[0];
        pending := pending[1..];
        delivered := delivered + [flit];
        inside := true;
        var acts := respond(delivered);
        Consume(acts, respond);
        inside := false;
      }
      PumpedEnd(Wire(pending, delivered), respond, GUARD - guard);
      pumping := false;
    }
  }
}
