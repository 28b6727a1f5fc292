/**
 The outbound side of the provider's wire: threads enqueue frames under a lock, one background
 thread swaps the queue out and ships it. Every atomic operation is a step of its own.
 */
module Wire {
  import opened Words

  const MAX_QUEUE := 65536
  const TRIES := 2000
  const EMSGSIZE := 90
  const ENOBUFS := 105
  const ETIMEDOUT := 110

  /** What the thread inside the lock is about to do. */
  datatype Holder<F> = Free | Pushing(frame: F) | Adding | Marking | Zeroing

  /** What the background thread is about to do; `rest` are the frames of its batch still to come. */
  datatype Background<F> =
    | Top
    | Loop(rest: seq<F>)
    | Sending(frame: F, rest: seq<F>, tries: nat)
    | Subtracting(rest: seq<F>)
    | MarkingBg(err: nat, rest: seq<F>)
    | ZeroingBg(rest: seq<F>)

  /** Shared variables, both threads, and what has happened: frames queued, counted and shipped. */
  datatype State<F> = State(
    txq: seq<F>, pending: U64, fatal: nat, holder: Holder<F>, bg: Background<F>,
    pushed: seq<F>, counted: nat, shipped: seq<F>, observed: bool)

  /** What one sendto call returned. */
  datatype Sent = Whole | Partial | Retry | Error(errno: nat)

  /** A step of the lock holder or, for the last two, of the background thread. */
  datatype Step<F> = Acquire(frame: F, flit: bool) | Holding | Background | SendTo(result: Sent)

  predicate Enabled<F>(s: State<F>, step: Step<F>) {
    match step
    case Acquire(_, _) => s.holder.Free?
    case Holding => !s.holder.Free?
    case Background => (s.bg.Top? ==> s.holder.Free?) && (s.bg.Sending? ==> s.bg.tries == TRIES)
    case SendTo(result) => s.bg.Sending? && s.bg.tries < TRIES && (result.Error? ==> result.errno != 0)
  }

  /** fatal_errno changes once only, from 0. */
  function Failed<F>(s: State<F>, err: nat): State<F> {
    if s.fatal == 0 then s.(fatal := err) else s
  }

  function DoHolder<F>(s: State<F>): State<F>
    requires !s.holder.Free?
  {
    match s.holder
    case Pushing(f) => s.(txq := s.txq + [f], pushed := s.pushed + [f], holder := Adding)
    case Adding => s.(pending := (s.pending + 1) % WORD64, counted := s.counted + 1, holder := Free)
    case Marking => Failed(s, ENOBUFS).(holder := if s.fatal == 0 then Zeroing else Free)
    case Zeroing => s.(pending := 0, holder := Free)
  }

  function DoBackground<F>(s: State<F>): State<F>
    requires Enabled(s, Step.Background)
  {
    match s.bg
    case Top => s.(txq := [], bg := Loop(s.txq))
    case Loop(rest) =>
      if rest == [] then s.(bg := Top)
      else if s.fatal != 0 then s.(bg := Top, observed := true)
      else s.(bg := Sending(rest[0], rest[1..], 0))
    case Sending(_, rest, _) => s.(bg := if s.fatal == 0 then MarkingBg(ETIMEDOUT, rest) else Loop(rest))
    case Subtracting(rest) => s.(pending := (s.pending + WORD64 - 1) % WORD64, bg := Loop(rest))
    case MarkingBg(err, rest) => Failed(s, err).(bg := if s.fatal == 0 then ZeroingBg(rest) else Loop(rest))
    case ZeroingBg(rest) => s.(pending := 0, bg := Loop(rest))
  }

  function DoSendTo<F>(s: State<F>, result: Sent): State<F>
    requires s.bg.Sending?
  {
    match result
    case Whole => s.(shipped := s.shipped + [s.bg.frame], bg := Subtracting(s.bg.rest))
    case Partial => s.(bg := MarkingBg(EMSGSIZE, s.bg.rest))
    case Retry => s.(bg := s.bg.(tries := s.bg.tries + 1))
    case Error(errno) => s.(bg := MarkingBg(errno, s.bg.rest))
  }

  function Do<F>(s: State<F>, step: Step<F>): State<F>
    requires Enabled(s, step)
  {
    match step
    case Acquire(frame, flit) =>
      s.(holder := if |s.txq| < MAX_QUEUE then Pushing(frame) else if flit then Marking else Free)
    case Holding => DoHolder(s)
    case Background => DoBackground(s)
    case SendTo(result) => DoSendTo(s, result)
  }

  ghost predicate IsRun<F>(states: seq<State<F>>, steps: seq<Step<F>>) {
    && |states| == |steps| + 1
    && states[0] == State([], 0, 0, Free, Top, [], 0, [], false)
    && forall i :: 0 <= i < |steps| ==> Enabled(states[i], steps[i]) && states[i + 1] == Do(states[i], steps[i])
  }

  // ---- the invariant ----

  /** Frames the background thread has taken and not shipped. */
  function Batch<F>(bg: Background<F>): seq<F> {
    match bg
    case Top => []
    case Sending(frame, rest, _) => [frame] + rest
    case _ => bg.rest
  }

  /** No frame has been given up. */
  ghost predicate Contiguous<F>(s: State<F>) {
    s.pushed == s.shipped + Batch(s.bg) + s.txq
  }

  /** A frame was given up, so the wire has failed or is about to, and nothing more will be sent. */
  ghost predicate Broken<F>(s: State<F>) {
    && s.counted <= |s.pushed| && s.shipped <= s.pushed[..s.counted] && !s.bg.Sending? && !s.bg.Subtracting?
    && (s.fatal == 0 ==> s.bg.MarkingBg? && |s.pushed| == |s.shipped| + 1 + |Batch(s.bg)| + |s.txq|)
  }

  ghost predicate Inv<F>(s: State<F>) {
    && |s.txq| <= MAX_QUEUE && |s.shipped| <= |s.pushed|
    && |Batch(s.bg)| + (if s.bg.Subtracting? || s.bg.MarkingBg? then 1 else 0) <= MAX_QUEUE
    && (s.holder.Pushing? ==> |s.txq| < MAX_QUEUE)
    && (if s.holder.Adding? then s.counted + 1 == |s.pushed| && s.txq != [] else s.counted == |s.pushed|)
    && (Contiguous(s) || Broken(s))
    && (s.bg.MarkingBg? ==> s.bg.err != 0 && Broken(s))
    && (s.holder.Marking? ==> s.txq != [])
    && (s.fatal != 0 ==> |s.shipped| + (if s.bg.Sending? then 1 else 0) < s.counted)
    && (s.bg.ZeroingBg? || s.holder.Zeroing? ==> s.fatal != 0)
    && (s.observed ==> s.fatal != 0 && !s.bg.Sending? && !s.bg.Subtracting?)
    && (s.fatal == 0 ==> s.pending == s.counted - |s.shipped| + (if s.bg.Subtracting? then 1 else 0))
  }

  lemma HolderKeepsInv<F>(s: State<F>)
    requires Inv(s) && !s.holder.Free?
    ensures Inv(DoHolder(s))
  {
    var s' := DoHolder(s);
    if s.holder.Pushing? && Contiguous(s) {
      assert s'.pushed == s.shipped + Batch(s.bg) + (s.txq + [s.holder.frame]);
    }
    if s.holder.Pushing? && Broken(s) {
      assert s'.pushed[..s.counted] == s.pushed[..s.counted];
    }
  }

  lemma TopKeepsInv<F>(s: State<F>)
    requires Inv(s) && s.bg.Top? && s.holder.Free?
    ensures Inv(DoBackground(s))
  {
    if Contiguous(s) {
      assert s.shipped + [] + s.txq == s.shipped + s.txq + [];
    }
  }

  lemma LoopKeepsInv<F>(s: State<F>)
    requires Inv(s) && s.bg.Loop?
    ensures Inv(DoBackground(s))
  {
    var rest := s.bg.rest;
    if rest != [] {
      assert [rest[0]] + rest[1..] == rest;
      if s.fatal != 0 {
        ShippedCounted(s);
      }
    }
  }

  lemma BackgroundKeepsInv<F>(s: State<F>)
    requires Inv(s) && Enabled(s, Step<F>.Background)
    ensures Inv(DoBackground(s))
  {
    match s.bg
    case Top => TopKeepsInv(s);
    case Loop(_) => LoopKeepsInv(s);
    case Sending(_, _, _) => ShippedCounted(s);
    case _ =>
  }

  /** Frames are shipped only after they were counted. */
  lemma ShippedCounted<F>(s: State<F>)
    requires Inv(s)
    ensures s.shipped <= s.pushed[..s.counted]
  {
    if Contiguous(s) {
      assert |s.shipped| <= s.counted;
      assert s.shipped == s.pushed[..|s.shipped|];
    }
  }

  lemma SendToKeepsInv<F>(s: State<F>, result: Sent)
    requires Inv(s) && Enabled(s, SendTo(result))
    ensures Inv(DoSendTo(s, result))
  {
    ShippedCounted(s);
    if result.Whole? {
      assert s.shipped + ([s.bg.frame] + s.bg.rest) + s.txq == (s.shipped + [s.bg.frame]) + s.bg.rest + s.txq;
    }
  }

  lemma {:induction false} RunKeepsInv<F>(states: seq<State<F>>, steps: seq<Step<F>>, k: nat)
    requires IsRun(states, steps) && k < |states|
    ensures Inv(states[k])
  {
    if k == 0 {
    } else {
      RunKeepsInv(states, steps, k - 1);
      match steps[k - 1]
      case Acquire(_, _) =>
      case Holding => HolderKeepsInv(states[k - 1]);
      case Background => BackgroundKeepsInv(states[k - 1]);
      case SendTo(result) => SendToKeepsInv(states[k - 1], result);
    }
  }

  // ---- what holds in every interleaving ----

  /** Datagrams shipped are a prefix of the frames accepted, in the order they were accepted. */
  lemma ShippedIsPrefix<F>(states: seq<State<F>>, steps: seq<Step<F>>, k: nat)
    requires IsRun(states, steps) && k < |states|
    ensures states[k].counted <= |states[k].pushed| && states[k].shipped <= states[k].pushed[..states[k].counted]
  {
    RunKeepsInv(states, steps, k);
    ShippedCounted(states[k]);
  }

  /** While the wire has not failed, pending_tx is never below the frames accepted and not shipped. */
  lemma PendingCoversUnshipped<F>(states: seq<State<F>>, steps: seq<Step<F>>, k: nat)
    requires IsRun(states, steps) && k < |states| && states[k].fatal == 0
    ensures |states[k].shipped| <= states[k].counted
    ensures states[k].counted - |states[k].shipped| <= states[k].pending <= states[k].counted - |states[k].shipped| + 1
    ensures states[k].pending <= 2 * MAX_QUEUE
  {
    RunKeepsInv(states, steps, k);
    ShippedCounted(states[k]);
  }

  /** Failure is sticky, and once the background thread has seen it nothing is shipped any more. */
  lemma {:induction false} NothingAfterFailure<F>(states: seq<State<F>>, steps: seq<Step<F>>, i: nat, k: nat)
    requires IsRun(states, steps) && i <= k < |states| && states[i].fatal != 0
    ensures states[k].fatal == states[i].fatal
    ensures states[i].observed ==> states[k].observed && states[k].shipped == states[i].shipped
    ensures |states[k].shipped| <= |states[i].shipped| + if states[i].bg.Sending? then 1 else 0
    ensures states[k].bg.Sending? ==> states[i].bg.Sending? && |states[k].shipped| == |states[i].shipped|
  {
    if i < k {
      NothingAfterFailure(states, steps, i, k - 1);
      RunKeepsInv(states, steps, k - 1);
      StepAfterFailure(states[k - 1], steps[k - 1]);
      hide Inv, Do;
    }
  }

  lemma StepAfterFailure<F>(s: State<F>, step: Step<F>)
    requires Inv(s) && Enabled(s, step) && s.fatal != 0
    ensures var s' := Do(s, step);
      && s'.fatal == s.fatal && (s.observed ==> s'.observed)
      && (s'.shipped == s.shipped || (s.bg.Sending? && !s.observed && !s'.bg.Sending? && |s'.shipped| == |s.shipped| + 1))
      && (s'.bg.Sending? ==> s.bg.Sending?)
  {
  }

  // ---- the queue is shipped ----

  /** Steps from a state on. */
  ghost predicate Leads<F>(states: seq<State<F>>, steps: seq<Step<F>>) {
    && |states| == |steps| + 1
    && forall i :: 0 <= i < |steps| ==> Enabled(states[i], steps[i]) && states[i + 1] == Do(states[i], steps[i])
  }

  lemma LeadsFirst<F>(s: State<F>, step: Step<F>, states: seq<State<F>>, steps: seq<Step<F>>)
    requires Enabled(s, step) && Leads(states, steps) && states[0] == Do(s, step)
    ensures Leads([s] + states, [step] + steps)
  {
    hide Enabled, Do;
    var ss, ts := [s] + states, [step] + steps;
    forall i | 0 <= i < |ts| ensures Enabled(ss[i], ts[i]) && ss[i + 1] == Do(ss[i], ts[i]) {
      if i > 0 {
        assert ss[i] == states[i - 1] && ts[i] == steps[i - 1] && ss[i + 1] == states[i - 1 + 1];
      }
    }
  }

  /** A batch whose sends all succeed is shipped whole, in order. */
  lemma {:induction false} BatchShips<F>(s: State<F>) returns (states: seq<State<F>>, steps: seq<Step<F>>)
    requires s.bg.Loop? && s.fatal == 0
    ensures Leads(states, steps) && states[0] == s
    ensures var s' := states[|steps|];
      s'.shipped == s.shipped + s.bg.rest && s'.bg == Top && s'.txq == s.txq && s'.fatal == 0 && s'.holder == s.holder
    decreases |s.bg.rest|
  {
    if s.bg.rest == [] {
      states, steps := [s, Do(s, Step.Background)], [Step.Background];
    } else {
      var s1 := Do(s, Step.Background);
      var s2 := Do(s1, SendTo(Whole));
      var s3 := Do(s2, Step.Background);
      states, steps := BatchShips(s3);
      LeadsFirst(s2, Step.Background, states, steps);
      states, steps := [s2] + states, [Step.Background] + steps;
      LeadsFirst(s1, SendTo(Whole), states, steps);
      states, steps := [s1] + states, [SendTo(Whole)] + steps;
      LeadsFirst(s, Step.Background, states, steps);
      states, steps := [s] + states, [Step.Background] + steps;
      assert s.shipped + s.bg.rest == (s.shipped + [s.bg.rest[0]]) + s.bg.rest[1..];
    }
  }

  /** One pass of the background thread over a good wire ships everything queued, in order. */
  lemma PassShips<F>(s: State<F>) returns (states: seq<State<F>>, steps: seq<Step<F>>)
    requires s.bg.Top? && s.holder.Free? && s.fatal == 0
    ensures Leads(states, steps) && states[0] == s
    ensures var s' := states[|steps|];
      s'.shipped == s.shipped + s.txq && s'.txq == [] && s'.bg == Top && s'.fatal == 0
  {
    states, steps := BatchShips(Do(s, Step.Background));
    LeadsFirst(s, Step.Background, states, steps);
    states, steps := [s] + states, [Step.Background] + steps;
  }

  // ---- tx_drained ----

  /** tx_drained loads fatal_errno in one state and pending_tx in a later one. */
  predicate Drained<F>(first: State<F>, second: State<F>) {
    first.fatal == 0 && second.pending == 0
  }

  /** Its answer is right exactly when the wire has still not failed at the second load. */
  lemma DrainedExactly<F>(states: seq<State<F>>, steps: seq<Step<F>>, i: nat, k: nat)
    requires IsRun(states, steps) && i <= k < |states| && Drained(states[i], states[k])
    ensures states[k].counted <= |states[k].pushed|
    ensures states[k].shipped == states[k].pushed[..states[k].counted] <==> states[k].fatal == 0
  {
    RunKeepsInv(states, steps, k);
    ShippedCounted(states[k]);
  }

  /**
   It can be wrong otherwise: the wire fails between the two loads, pending_tx is cleared, and
   tx_drained reports success for a frame that was never shipped.
   */
  lemma DrainedRace<F>(f: F) returns (states: seq<State<F>>, steps: seq<Step<F>>, i: nat, k: nat)
    ensures IsRun(states, steps) && i <= k < |states| && Drained(states[i], states[k])
    ensures states[k].counted == 1 && states[k].pushed == [f] && states[k].shipped == []
  {
    var s0: State<F> := State([], 0, 0, Free, Top, [], 0, [], false);
    steps := [Acquire(f, false), Holding, Holding, Background, Background, SendTo(Error(1)), Background, Background];
    var s3 := s0.(txq := [f], pushed := [f], pending := 1, counted := 1);
    var s6 := s3.(txq := [], bg := MarkingBg(1, []));
    states := [s0, s0.(holder := Pushing(f)), s0.(holder := Adding, txq := [f], pushed := [f]), s3,
               s3.(txq := [], bg := Loop([f])), s3.(txq := [], bg := Sending(f, [], 0)), s6,
               s6.(fatal := 1, bg := ZeroingBg([])), s6.(fatal := 1, bg := Loop([]), pending := 0)];
    i, k := 3, 8;
  }

  // ---- the code of one thread ----

  /** What the retry loop makes of the results of successive sendto calls: 0, or the error to mark. */
  function Verdict(results: nat -> Sent, t: nat): nat
    decreases TRIES - t
  {
    if t >= TRIES then ETIMEDOUT
    else match results(t)
      case Whole => 0
      case Partial => EMSGSIZE
      case Retry => Verdict(results, t + 1)
      case Error(errno) => if errno == 0 then EIO else errno
  }

  const EIO := 5

  /** The first frame from i on that cannot be sent. */
  function FirstBad(results: nat -> nat -> Sent, i: nat, n: nat): (k: nat)
    requires i <= n
    ensures i <= k <= n
    decreases n - i
  {
    if i < n && Verdict(results(i), 0) == 0 then FirstBad(results, i + 1, n) else i
  }

  class Nic<F> {
    var txq: seq<F>
    var pending: U64
    var fatal: nat
    ghost var shipped: seq<F>

    method MarkWireFailed(error: nat)
      modifies this`fatal, this`pending
      ensures fatal != 0
      ensures if old(fatal) != 0 then fatal == old(fatal) && pending == old(pending)
              else fatal == (if error == 0 then EIO else error) && pending == 0
    {
      if fatal == 0 {
        fatal := if error == 0 then EIO else error;
        pending := 0;
      }
    }

    /** openurma_nic_data_send past its argument checks, on a NIC with a peer. */
    method DataSend(frame: F) returns (ok: bool)
      modifies this`txq, this`pending
      ensures ok <==> old(fatal) == 0 && |old(txq)| < MAX_QUEUE
      ensures txq == if ok then old(txq) + [frame] else old(txq)
      ensures pending == if ok then (old(pending) + 1) % WORD64 else old(pending)
    {
      ok := fatal == 0 && |txq| < MAX_QUEUE;
      if ok {
        txq := txq + [frame];
        pending := (pending + 1) % WORD64;
      }
    }

    /** Send one frame, trying again while the peer is not there or not ready. */
    method ShipFrame(frame: F, results: nat -> Sent)
      requires fatal == 0
      modifies this`pending, this`fatal, this`shipped
      ensures fatal == Verdict(results, 0)
      ensures shipped == if fatal == 0 then old(shipped) + [frame] else old(shipped)
      ensures pending == if fatal == 0 then (old(pending) + WORD64 - 1) % WORD64 else 0
    {
      var t := 0;
      while t < TRIES
        invariant t <= TRIES && Verdict(results, 0) == Verdict(results, t)
        invariant fatal == 0 && shipped == old(shipped) && pending == old(pending)
      {
        match results(t)
        case Whole =>
          pending := (pending + WORD64 - 1) % WORD64;
          shipped := shipped + [frame];
          return;
        case Partial =>
          MarkWireFailed(EMSGSIZE);
          return;
        case Error(errno) =>
          MarkWireFailed(errno);
          return;
        case Retry =>
          t := t + 1;
      }
      MarkWireFailed(ETIMEDOUT);
    }

    /** Swap the queue out and ship it, up to the first frame that fails. */
    method ShipQueue(results: nat -> nat -> Sent)
      modifies this
      ensures txq == []
      ensures old(fatal) != 0 ==> shipped == old(shipped) && fatal == old(fatal)
      ensures old(fatal) == 0 ==>
        var n := FirstBad(results, 0, |old(txq)|);
        shipped == old(shipped) + old(txq)[..n] && fatal == if n < |old(txq)| then Verdict(results(n), 0) else 0
    {
      hide Verdict;
      var out := txq;
      txq := [];
      var i := 0;
      ghost var n := FirstBad(results, 0, |out|);
      while i < |out| && fatal == 0
        invariant i <= |out| && txq == []
        invariant old(fatal) != 0 ==> i == 0 && fatal == old(fatal) && shipped == old(shipped)
        invariant old(fatal) == 0 && fatal == 0 ==> shipped == old(shipped) + out[..i] && FirstBad(results, i, |out|) == n
        invariant old(fatal) == 0 && fatal != 0 ==>
                    n < |out| && fatal == Verdict(results(n), 0) && shipped == old(shipped) + out[..n]
      {
        ShipFrame(out[i], results(i));
        assert out[..i + 1] == out[..i] + [out[i]];
        i := i + 1;
      }
    }
  }
}
