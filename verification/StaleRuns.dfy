/**
 The status of unanswered WRs over whole runs, and a run in which a SEND that went out reports
 the failure of an older one.
 */
module StaleRuns {
  import opened Words
  import opened SideChannel
  import opened Rings
  import opened Provider
  import opened ProviderQueues
  import opened TwoNode
  import opened TwoNodeRuns
  import opened StaleStatus

  lemma FreshStale(n: Node)
    requires Fresh(n)
    ensures Stale(n)
  {
  }

  lemma {:induction false} RunStale(states: seq<Sys>, steps: seq<(Who, Step)>, k: nat, who: Who)
    requires IsRun(states, steps) && k < |states|
    ensures NodeOk(NodeOf(states[k], who)) && Stale(NodeOf(states[k], who))
  {
    hide Stale, Do, Enabled, Requester, InOrder, AllHonest;
    if k == 0 {
      FreshStale(NodeOf(states[0], who));
    } else {
      assert TwoNodeRuns.Next(states[k - 1], states[k], steps[k - 1]);
      RunStale(states, steps, k - 1, who);
      RunSound(states, steps, k - 1, who);
      if steps[k - 1].0 == who {
        hide Fresh;
        StepStale(SideOf(states[k - 1], who), steps[k - 1].1);
      }
    }
  }

  /**
   In every run, the completion of a WR that nobody answers reports a timeout if the WR was failed
   while outstanding. Otherwise it reports what its slot was left with: nothing for the first 4096
   WRs, then what the WR 4096 earlier completed with, or a timeout if that one was failed afterwards.
   */
  lemma SilentStatus(states: seq<Sys>, steps: seq<(Who, Step)>, k: nat, who: Who, j: nat)
    requires IsRun(states, steps) && k < |states|
    requires var n := NodeOf(states[k], who); j < |n.done| && j < |n.posted| && Silent(n.posted[j].wr.op)
    ensures var n := NodeOf(states[k], who);
      n.done[j].status ==
        if j in n.timedOut then ACK_TIMEOUT_ERR
        else if j < MAX_OUT then 0
        else if j - MAX_OUT in n.late then ACK_TIMEOUT_ERR
        else n.done[j - MAX_OUT].status
  {
    hide IsRun, Slots;
    RunStale(states, steps, k, who);
  }

  /** So it reports success exactly when it was not failed and the last WR in its slot left success. */
  lemma SilentSuccessExactly(states: seq<Sys>, steps: seq<(Who, Step)>, k: nat, who: Who, j: nat)
    requires IsRun(states, steps) && k < |states|
    requires var n := NodeOf(states[k], who); j < |n.done| && j < |n.posted| && Silent(n.posted[j].wr.op)
    ensures var n := NodeOf(states[k], who);
      n.done[j].status == 0 <==>
        j !in n.timedOut && (j >= MAX_OUT ==> j - MAX_OUT !in n.late && n.done[j - MAX_OUT].status == 0)
  {
    hide IsRun;
    SilentStatus(states, steps, k, who, j);
  }

  /** A WR is failed by a refused frame, the one just posted, or by a poll that saw a wire error. */
  lemma FailedOnlyBy(s: Side, step: Step)
    requires Enabled(s, step)
    ensures var n, n' := s.node, Do(s, step).node;
      && (n'.timedOut != n.timedOut ==> step == SendStep(Refused) || (step.PollStep? && step.wireErr))
      && (n'.late != n.late ==> step == SendStep(Refused))
      && (step == SendStep(Refused) ==>
            forall i :: i in n'.timedOut + n'.late && i !in n.timedOut + n.late ==> i == |n.posted| - 1)
  {
    hide OnFrame, Harvest, Take, Parse, PlanWr;
    match step
    case DeliverStep(alloc) =>
      var p := Parse(Tag(s.rx[0]), Body(s.rx[0]));
      if p.Some? {
        FrameFails(s.node, p.value, alloc);
      }
    case PollStep(jfc, count, wireErr, flits, backstop) => HarvestFails(s.node, wireErr, flits, backstop);
    case _ =>
  }

  lemma FrameFails(n: Node, f: Frame, alloc: Alloc)
    requires NodeOk(n) && (f.SendMsg? ==> f.len <= |f.data|)
    ensures OnFrame(n, f, alloc).timedOut == n.timedOut && OnFrame(n, f, alloc).late == n.late
  {
    hide First, Live;
  }

  lemma {:induction false} HarvestFails(n: Node, wireErr: bool, flits: nat, backstop: nat)
    requires NodeOk(n)
    ensures var n' := Harvest(n, wireErr, flits, backstop);
      n'.late == n.late && (!wireErr ==> n'.timedOut == n.timedOut)
    decreases Count(n.out)
  {
    hide Live;
    if n.out.head == n.out.tail {
    } else {
      var n1 := Settle(n, wireErr);
      var waits := !wireErr && flits == 0;
      var n2 := if waits then Waited(n1) else n1;
      HarvestFails(Retire(n2), wireErr, if flits > 0 then flits - 1 else 0, backstop);
    }
  }

  // ---- a run with a wrong status ----

  function FreshNode(): (n: Node)
    ensures Fresh(n) && Resting(n)
  {
    var jfc := Jfc(Ring(seq(MAX_OUT, _ => Cr(0, false, 0, 0)), 0, 0), [], []);
    Node(map[], seq(REGIONS, _ => Region(0, 0, 0, false)),
         Ring(seq(MAX_OUT, _ => Entry(0, Write, 0, 0, 0, 0, 0)), 0, 0), seq(MAX_OUT, _ => Ack(0, 0, false)), 1,
         [jfc], 0, 0, Ring(seq(MAX_RECV, _ => Buffer(0, 0, 0)), 0, 0), false, 0,
         Idle, None, [], [], [], [], [], [], [], {}, {})
  }

  /** Nothing outstanding, nothing to poll, nothing being posted. */
  predicate Resting(n: Node) {
    && NodeOk(n) && n.poster.Idle? && !n.failed && n.built == []
    && n.out.head == n.out.tail && n.jfcs[n.sendJfc].ring.head == n.jfcs[n.sendJfc].ring.tail
  }

  /** An atomic, or a SEND that the provider accepts. */
  predicate Postable(wr: Wr) {
    wr.op == Atomic || (wr.op == Send && wr.local != 0 && 0 < wr.len <= MAX_BODY - 8)
  }

  /** The steps of posting one WR and polling its completion. */
  function Post(n: Node, wr: Wr): Node
    requires Resting(n) && Postable(wr)
  {
    Record(Build(Check(n, wr), 0, 0, true), true)
  }

  lemma Posted(n: Node, wr: Wr)
    requires Resting(n) && Postable(wr)
    ensures !Full(n.out) && Check(n, wr).poster == Checked(wr) && Build(Check(n, wr), 0, 0, true).poster.Built?
    ensures var n1 := Post(n, wr);
      && NodeOk(n1) && Count(n1.out) == 1 && n1.out.slots[n1.out.head].op == wr.op && n1.out.head == n.out.head
      && n1.poster.Recorded? && (n1.poster.frame.Some? <==> wr.op == Send)
      && |n1.posted| == |n.posted| + 1 && n1.posted[..|n.posted|] == n.posted && n1.posted[|n.posted|].wr == wr
      && n1.done == n.done && n1.timedOut == n.timedOut && n1.late == n.late && n1.built == n.built
      && n1.jfcs == n.jfcs && n1.sendJfc == n.sendJfc && !n1.failed
  {
  }

  /** Polled with one pipeline flit in hand, a lone unanswered WR completes. */
  lemma Polled(n: Node)
    requires NodeOk(n) && Count(n.out) == 1 && Silent(n.out.slots[n.out.head].op) && n.poster.Idle?
    requires !n.failed && n.built == [] && n.jfcs[n.sendJfc].ring.head == n.jfcs[n.sendJfc].ring.tail
    ensures var n' := Poll(n, n.sendJfc, 1, false, 1, 0);
      && Resting(n') && n'.posted == n.posted && |n'.done| == |n.done| + 1 && n'.done[..|n.done|] == n.done
      && n'.timedOut == n.timedOut && n'.late == n.late
  {
    hide Live;
    var n1 := Settle(n, false);
    assert Harvest(n, false, 1, 0) == Harvest(Retire(n1), false, 0, 0);
    var n2 := Retire(n1);
    assert n2.out.head == n2.out.tail;
    assert Harvest(n2, false, 0, 0) == n2;
    var j := n2.jfcs[n2.sendJfc];
    var j1 := j.(ring := Pop(j.ring), polled := j.polled + [j.ring.slots[j.ring.head]]);
    assert Take(j, 1) == Take(j1, 0) == j1;
  }

  /** A run goes on with any enabled step that takes no request id. */
  lemma Extended(states: seq<Sys>, steps: seq<(Who, Step)>, s': Sys, step: Step)
    requires IsRun(states, steps)
    requires var s := states[|steps|]; Enabled(SideOf(s, A), step) && s' == WithSide(s, A, Do(SideOf(s, A), step))
    requires |s'.a.built| < WORD32 && |s'.b.built| < WORD32
    ensures IsRun(states + [s'], steps + [(A, step)])
  {
    hide Do, Enabled, Fresh;
    var ss, ts := states + [s'], steps + [(A, step)];
    forall i | 0 <= i < |ts| ensures TwoNodeRuns.Next(ss[i], ss[i + 1], ts[i]) {
      if i < |steps| {
        assert TwoNodeRuns.Next(states[i], states[i + 1], steps[i]);
      }
    }
  }

  /** Where a witness run stands: node A at rest, B untouched. */
  ghost predicate AtRest(states: seq<Sys>, steps: seq<(Who, Step)>) {
    && IsRun(states, steps)
    && var s := states[|steps|]; Resting(s.a) && s.b.built == [] && |s.a.done| == |s.a.posted|
  }

  /** Frames of a WR on the wire to B. */
  function Frames(wr: Wr, refused: bool): nat {
    if wr.op == Send && !refused then 1 else 0
  }

  lemma PostSteps(states: seq<Sys>, steps: seq<(Who, Step)>, wr: Wr) returns (states': seq<Sys>, steps': seq<(Who, Step)>)
    requires AtRest(states, steps) && Postable(wr)
    ensures IsRun(states', steps') && states'[|steps'|] == states[|steps|].(a := Post(states[|steps|].a, wr))
  {
    var s := states[|steps|];
    var n := s.a;
    Posted(n, wr);
    hide IsRun, Check, Build, Record, Fresh;
    var s1 := s.(a := Check(n, wr));
    SameBuilt(n, wr);
    Extended(states, steps, s1, CheckStep(wr));
    states', steps' := states + [s1], steps + [(A, CheckStep(wr))];
    var s2 := s1.(a := Build(s1.a, 0, 0, true));
    Extended(states', steps', s2, BuildStep(0, 0, true));
    states', steps' := states' + [s2], steps' + [(A, BuildStep(0, 0, true))];
    var s3 := s2.(a := Post(n, wr));
    Extended(states', steps', s3, RecordStep(true));
    states', steps' := states' + [s3], steps' + [(A, RecordStep(true))];
  }

  /** One WR posted by A and its completion polled; its frame, if it has one, goes out or is refused. */
  lemma PostAndPoll(states: seq<Sys>, steps: seq<(Who, Step)>, wr: Wr, refused: bool)
    returns (states': seq<Sys>, steps': seq<(Who, Step)>)
    requires AtRest(states, steps) && Postable(wr) && (refused ==> wr.op == Send)
    ensures AtRest(states', steps')
    ensures var s, s' := states[|steps|], states'[|steps'|];
      && |s'.a.posted| == |s.a.posted| + 1 && s'.a.posted[..|s.a.posted|] == s.a.posted
      && s'.a.posted[|s.a.posted|].wr == wr && |s'.ab| == |s.ab| + Frames(wr, refused)
      && s'.a.late == s.a.late
      && s'.a.timedOut == if refused then s.a.timedOut + {|s.a.posted|} else s.a.timedOut
  {
    states', steps' := PostSteps(states, steps, wr);
    var s3 := states'[|steps'|];
    Posted(states[|steps|].a, wr);
    hide IsRun, Post, Poll, Fresh;
    var sent := SendStep(if refused then Refused else Accepted);
    var s4 := WithSide(s3, A, Do(SideOf(s3, A), sent));
    AfterSend(s3, refused);
    Extended(states', steps', s4, sent);
    states', steps' := states' + [s4], steps' + [(A, sent)];
    hide Do;
    Polled(s4.a);
    var poll := PollStep(s4.a.sendJfc, 1, false, 1, 0);
    var s5 := s4.(a := Poll(s4.a, s4.a.sendJfc, 1, false, 1, 0));
    PollIs(s4);
    Extended(states', steps', s5, poll);
    states', steps' := states' + [s5], steps' + [(A, poll)];
  }

  lemma PollIs(s: Sys)
    requires NodeOk(s.a)
    ensures var step := PollStep(s.a.sendJfc, 1, false, 1, 0);
      Enabled(SideOf(s, A), step)
      && WithSide(s, A, Do(SideOf(s, A), step)) == s.(a := Poll(s.a, s.a.sendJfc, 1, false, 1, 0))
  {
    hide Poll;
  }

  /** Any number of atomics, one after the other. */
  lemma {:induction false} ManyAtomics(states: seq<Sys>, steps: seq<(Who, Step)>, count: nat)
    returns (states': seq<Sys>, steps': seq<(Who, Step)>)
    requires AtRest(states, steps)
    ensures AtRest(states', steps')
    ensures var s, s' := states[|steps|], states'[|steps'|];
      && |s'.a.posted| == |s.a.posted| + count && s'.a.posted[..|s.a.posted|] == s.a.posted
      && |s'.ab| == |s.ab| && s'.a.late == s.a.late && s'.a.timedOut == s.a.timedOut
    decreases count
  {
    hide AtRest, IsRun;
    RestsInRun(states, steps);
    if count == 0 {
      states', steps' := states, steps;
    } else {
      states', steps' := ManyAtomics(states, steps, count - 1);
      RestsInRun(states', steps');
      var mid := states'[|steps'|];
      states', steps' := PostAndPoll(states', steps', Wr(Atomic, 0, 0, 0, 0, 8), false);
      RestsInRun(states', steps');
      var end := states'[|steps'|];
      assert end.a.posted[..|mid.a.posted|][..|states[|steps|].a.posted|] == states[|steps|].a.posted;
    }
  }

  /**
   A reachable wrong status: a SEND is refused, 4095 atomics follow, and the next SEND, whose frame
   does go out and which nothing fails, reports the timeout of the first.
   */
  lemma SendReportsOlderFailure() returns (states: seq<Sys>, steps: seq<(Who, Step)>)
    ensures IsRun(states, steps)
    ensures var s := states[|steps|];
      && |s.a.done| == |s.a.posted| == MAX_OUT + 1 && s.a.posted[MAX_OUT].wr.op == Send
      && MAX_OUT !in s.a.timedOut && MAX_OUT !in s.a.late && |s.ab| == 1
      && s.a.done[MAX_OUT].status == ACK_TIMEOUT_ERR
  {
    var send := Wr(Send, 0, 4096, 0, 0, 8);
    var s0 := Sys(FreshNode(), FreshNode(), [], []);
    states, steps := [s0], [];
    assert AtRest(states, steps);
    hide AtRest;
    states, steps := PostAndPoll(states, steps, send, true);
    states, steps := ManyAtomics(states, steps, MAX_OUT - 1);
    states, steps := PostAndPoll(states, steps, send, false);
    RestsInRun(states, steps);
    hide IsRun;
    var a := states[|steps|].a;
    assert a.posted[0] == a.posted[..MAX_OUT][..1][0];
    SilentStatus(states, steps, |steps|, A, MAX_OUT);
    SilentStatus(states, steps, |steps|, A, 0);
  }

  lemma RestsInRun(states: seq<Sys>, steps: seq<(Who, Step)>)
    requires AtRest(states, steps)
    ensures IsRun(states, steps) && |states| == |steps| + 1 && |states[|steps|].a.done| == |states[|steps|].a.posted|
  {
  }

  lemma SameBuilt(n: Node, wr: Wr)
    requires Resting(n) && Postable(wr)
    ensures Check(n, wr).built == [] && Build(Check(n, wr), 0, 0, true).built == []
  {
    Posted(n, wr);
  }

  lemma AfterSend(s: Sys, refused: bool)
    requires NodeOk(s.a) && s.a.poster.Recorded? && !s.a.failed && Count(s.a.out) == 1 && s.a.posted != []
    requires refused ==> s.a.poster.frame.Some?
    ensures var s' := WithSide(s, A, Do(SideOf(s, A), SendStep(if refused then Refused else Accepted)));
      var n, n' := s.a, s'.a;
      && NodeOk(n') && n'.poster.Idle? && !n'.failed && Count(n'.out) == 1 && n'.out.head == n.out.head
      && n'.out.slots[n'.out.head].op == n.out.slots[n.out.head].op
      && n'.posted == n.posted && n'.done == n.done && n'.built == n.built && n'.late == n.late
      && n'.timedOut == (if refused then n.timedOut + {|n.posted| - 1} else n.timedOut)
      && n'.jfcs == n.jfcs && n'.sendJfc == n.sendJfc && s'.b == s.b
      && |s'.ab| == |s.ab| + (if n.poster.frame.Some? && !refused then 1 else 0)
      && Enabled(SideOf(s, A), SendStep(if refused then Refused else Accepted))
  {
    hide Live;
  }
}
