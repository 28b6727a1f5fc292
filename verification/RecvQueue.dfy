/**
 The receive queue of a jetty: a vector with a head index, compacted only when the consumed part
 is long and more than half of it. It refines a bounded FIFO.
 */
module RecvQueue {
  const SLACK := 64

  /** depth <= 0 means no bound. shifted and consumed count what has happened. */
  datatype Queue<T> = Queue(rq: seq<T>, head: nat, depth: int, shifted: nat, consumed: nat)

  datatype Outcome<T> = Posted | Full | Got(value: T) | Empty
  datatype Op<T> = Post(value: T) | Consume

  predicate Ok<T>(q: Queue<T>) {
    q.head <= |q.rq|
  }

  /** The queue it stands for. */
  function Live<T>(q: Queue<T>): seq<T>
    requires Ok(q)
  {
    q.rq[q.head..]
  }

  function DoPost<T>(q: Queue<T>, x: T): (r: (Queue<T>, Outcome<T>))
    requires Ok(q)
    ensures Ok(r.0)
  {
    if q.depth > 0 && |q.rq| - q.head >= q.depth then (q, Full) else (q.(rq := q.rq + [x]), Posted)
  }

  /** Erase the consumed part when it is longer than the slack and than the rest. */
  function Compact<T>(q: Queue<T>): (q': Queue<T>)
    requires Ok(q)
    ensures Ok(q')
  {
    if q.head > SLACK && q.head * 2 > |q.rq| then
      q.(rq := q.rq[q.head..], head := 0, shifted := q.shifted + (|q.rq| - q.head))
    else q
  }

  function DoConsume<T>(q: Queue<T>): (r: (Queue<T>, Outcome<T>))
    requires Ok(q)
    ensures Ok(r.0)
  {
    if q.head >= |q.rq| then (q, Empty)
    else (Compact(q.(head := q.head + 1, consumed := q.consumed + 1)), Got(q.rq[q.head]))
  }

  function Do<T>(q: Queue<T>, op: Op<T>): (r: (Queue<T>, Outcome<T>))
    requires Ok(q)
    ensures Ok(r.0)
  {
    match op
    case Post(x) => DoPost(q, x)
    case Consume => DoConsume(q)
  }

  /** The specification: a FIFO that refuses posts once a positive depth is reached. */
  function FifoDo<T>(s: seq<T>, depth: int, op: Op<T>): (seq<T>, Outcome<T>) {
    match op
    case Post(x) => if depth > 0 && |s| >= depth then (s, Full) else (s + [x], Posted)
    case Consume => if s == [] then (s, Empty) else (s[1..], Got(s[0]))
  }

  /** Storage stays near the live part, and what compaction moved was paid for by consumes. */
  ghost predicate Inv<T>(q: Queue<T>) {
    && Ok(q)
    && (q.head <= SLACK || q.head * 2 <= |q.rq|)
    && (q.depth > 0 ==> |Live(q)| <= q.depth)
    && q.shifted + q.head <= q.consumed
  }

  lemma StepRefines<T>(q: Queue<T>, op: Op<T>)
    requires Inv(q)
    ensures var r := Do(q, op);
      && Inv(r.0) && r.0.depth == q.depth
      && (Live(r.0), r.1) == FifoDo(Live(q), q.depth, op)
  {
    match op
    case Post(x) => assert q.depth <= 0 || |q.rq| - q.head < q.depth ==> (q.rq + [x])[q.head..] == Live(q) + [x];
    case Consume =>
      if q.head < |q.rq| {
        assert q.rq[q.head + 1..] == Live(q)[1..];
        assert q.rq[q.head + 1..][0..] == q.rq[q.head + 1..];
      }
  }

  function Run<T>(q: Queue<T>, ops: seq<Op<T>>): (r: (Queue<T>, seq<Outcome<T>>))
    requires Ok(q)
    ensures Ok(r.0)
    decreases |ops|
  {
    if ops == [] then (q, [])
    else
      var r := Run(q, ops[..|ops| - 1]);
      var s := Do(r.0, ops[|ops| - 1]);
      (s.0, r.1 + [s.1])
  }

  function FifoRun<T>(depth: int, ops: seq<Op<T>>): (seq<T>, seq<Outcome<T>>)
    decreases |ops|
  {
    if ops == [] then ([], [])
    else
      var r := FifoRun(depth, ops[..|ops| - 1]);
      var s := FifoDo(r.0, depth, ops[|ops| - 1]);
      (s.0, r.1 + [s.1])
  }

  /** Successful consumes in a run. */
  function Gots<T>(out: seq<Outcome<T>>): nat {
    if out == [] then 0 else Gots(out[..|out| - 1]) + if out[|out| - 1].Got? then 1 else 0
  }

  /**
   For every run of posts and consumes from an empty queue: the outcomes and the live part are
   those of the FIFO, the live part never exceeds a positive depth, the vector never exceeds the
   larger of live + 64 and 2 * live, and compaction moved at most as many elements as were consumed.
   */
  lemma {:induction false} RefinesFifo<T>(depth: int, ops: seq<Op<T>>)
    ensures var r := Run(Queue([], 0, depth, 0, 0), ops);
      && Inv(r.0) && r.0.depth == depth && (Live(r.0), r.1) == FifoRun(depth, ops)
      && r.0.consumed == Gots(r.1) && r.0.shifted <= Gots(r.1)
      && (|r.0.rq| <= |Live(r.0)| + SLACK || |r.0.rq| <= 2 * |Live(r.0)|)
    decreases |ops|
  {
    hide Do, FifoDo;
    if ops == [] {
    } else {
      RefinesFifo(depth, ops[..|ops| - 1]);
      var r := Run(Queue([], 0, depth, 0, 0), ops[..|ops| - 1]);
      StepRefines(r.0, ops[|ops| - 1]);
      CountsGots(r.0, ops[|ops| - 1]);
      var out := Do(r.0, ops[|ops| - 1]).1;
      assert (r.1 + [out])[..|r.1|] == r.1;
    }
  }

  lemma CountsGots<T>(q: Queue<T>, op: Op<T>)
    requires Ok(q)
    ensures Do(q, op).0.consumed == q.consumed + if Do(q, op).1.Got? then 1 else 0
  {
  }

  class Jetty<T> {
    var rq: seq<T>
    var rqHead: nat
    const depth: int
    ghost var shifted: nat
    ghost var consumed: nat

    ghost function State(): Queue<T>
      reads this
    {
      Queue(rq, rqHead, depth, shifted, consumed)
    }

    constructor (depth: int)
      ensures State() == Queue([], 0, depth, 0, 0)
    {
      rq, rqHead, this.depth, shifted, consumed := [], 0, depth, 0, 0;
    }

    method PostRecv(x: T) returns (out: Outcome<T>)
      requires Ok(State())
      modifies this`rq
      ensures (State(), out) == DoPost(old(State()), x)
    {
      if depth > 0 && |rq| - rqHead >= depth {
        return Full;
      }
      rq := rq + [x];
      out := Posted;
    }

    method ConsumeRecv() returns (out: Outcome<T>)
      requires Ok(State())
      modifies this
      ensures (State(), out) == DoConsume(old(State()))
    {
      if rqHead >= |rq| {
        return Empty;
      }
      out := Got(rq[rqHead]);
      rqHead := rqHead + 1;
      consumed := consumed + 1;
      if rqHead > SLACK && rqHead * 2 > |rq| {
        shifted := shifted + (|rq| - rqHead);
        rq := rq[rqHead..];
        rqHead := 0;
      }
    }
  }
}
