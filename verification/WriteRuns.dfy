/**
 What success means for each opcode: for a WRITE that its bytes arrived, for a WRITE_IMM, which
 completes without waiting for its ack, not even that its frame left the node. Only WRITE and READ
 need the peer to succeed.
 */
module WriteRuns {
  import opened Words
  import opened GuestMemory
  import opened Rings
  import opened Provider
  import opened TwoNode
  import opened TwoNodeRuns
  import opened StaleRuns
  import StaleStatus

  /** In every run, every successful completion of this opcode means that the bytes arrived. */
  ghost predicate Safe(op: Op) {
    forall states: seq<Sys>, steps: seq<(Who, Step)>, k: nat, who: Who, j: nat ::
      IsRun(states, steps) && k < |states| && Succeeded(NodeOf(states[k], who), j, op) ==>
        BytesArrived(states, k, who, j)
  }

  // ---- one WR that never leaves its node ----

  function Lone(op: Op): Wr { Wr(op, 0, 4096, 0, 0, 8) }

  /** The node once it has posted the WR. */
  function Outstanding(n: Node, op: Op): Node
    requires Resting(n)
  {
    Record(Build(Check(n, Lone(op)), 0, 0, true), true)
  }

  lemma OutstandingShape(n: Node, op: Op)
    requires Resting(n) && Fresh(n)
    ensures Check(n, Lone(op)).poster == Checked(Lone(op)) && Build(Check(n, Lone(op)), 0, 0, true).poster.Built?
    ensures |Check(n, Lone(op)).built| == 0 && |Build(Check(n, Lone(op)), 0, 0, true).built| <= 1
    ensures var n1 := Outstanding(n, op);
      && n1.poster.Recorded? && !n1.failed && |n1.built| <= 1
      && |n1.posted| == 1 && n1.posted[0].wr == Lone(op) && n1.done == [] && n1.jfcs == n.jfcs && n1.sendJfc == n.sendJfc
      && Count(n1.out) == 1 && n1.out.slots[n1.out.head].op == op && n1.out.slots[n1.out.head].status == 0
  {
    hide Gather, Span;
  }

  /** A lone WR that nobody answers completes on the first pipeline flit, with the status in its slot. */
  lemma Completes(n: Node)
    requires NodeOk(n) && Count(n.out) == 1 && StaleStatus.Silent(n.out.slots[n.out.head].op)
    requires n.jfcs[n.sendJfc].ring.head == n.jfcs[n.sendJfc].ring.tail
    ensures var n' := Poll(n, n.sendJfc, 0, false, 1, 0);
      && n'.posted == n.posted && n'.built == n.built
      && n'.done == n.done + [Completion(n.out.slots[n.out.head])]
  {
    hide Live;
    var n1 := Settle(n, false);
    assert Harvest(n, false, 1, 0) == Harvest(Retire(n1), false, 0, 0);
    assert Harvest(Retire(n1), false, 0, 0) == Retire(n1);
  }

  /** No region, no copy. */
  lemma NoRegionNoCopy(x: Side, x': Side, c: Copy)
    requires forall i :: 0 <= i < |x.node.regions| ==> !x.node.regions[i].active
    ensures !Copies(x, x', c)
  {
    hide Scatter, Gather, Span;
  }

  /** A run in which B does nothing. */
  ghost predicate Alone(states: seq<Sys>, steps: seq<(Who, Step)>) {
    && IsRun(states, steps) && (forall i :: 0 <= i < |states| ==> states[i].b == FreshNode())
    && forall i :: 0 <= i < |steps| ==> steps[i].0 == A
  }

  lemma AloneExtended(states: seq<Sys>, steps: seq<(Who, Step)>, s': Sys, step: Step)
    returns (states': seq<Sys>, steps': seq<(Who, Step)>)
    requires Alone(states, steps)
    requires var s := states[|steps|]; Enabled(SideOf(s, A), step) && s' == WithSide(s, A, Do(SideOf(s, A), step))
    requires |s'.a.built| <= 1
    ensures Alone(states', steps') && states'[|steps'|] == s'
  {
    hide IsRun, Enabled, Do, FreshNode;
    LengthOf(states, steps);
    assert states[|steps|].b == FreshNode();
    BuiltNothing();
    Extended(states, steps, s', step);
    states', steps' := states + [s'], steps + [(A, step)];
  }

  lemma LengthOf(states: seq<Sys>, steps: seq<(Who, Step)>)
    requires IsRun(states, steps)
    ensures |states| == |steps| + 1
  {
  }

  lemma BuiltNothing()
    ensures FreshNode().built == []
  {
  }

  /** The WR is posted. */
  lemma PostLone(op: Op) returns (states: seq<Sys>, steps: seq<(Who, Step)>)
    ensures Alone(states, steps) && states[|steps|] == Sys(Outstanding(FreshNode(), op), FreshNode(), [], [])
  {
    var n := FreshNode();
    OutstandingShape(n, op);
    states, steps := [Sys(n, n, [], [])], [];
    assert Alone(states, steps);
    hide Alone, FreshNode, Check, Build, Record, IsRun;
    var wr := Lone(op);
    var s1 := Sys(Check(n, wr), n, [], []);
    states, steps := AloneExtended(states, steps, s1, CheckStep(wr));
    var s2 := s1.(a := Build(s1.a, 0, 0, true));
    states, steps := AloneExtended(states, steps, s2, BuildStep(0, 0, true));
    var s3 := s2.(a := Outstanding(n, op));
    states, steps := AloneExtended(states, steps, s3, RecordStep(true));
  }

  /** The node after the wire took its frame, if it has one, and failed. */
  function Stranded(n: Node): Node {
    n.(poster := Idle, failed := true)
  }

  lemma SendIs(s: Sys)
    requires NodeOk(s.a) && s.a.poster.Recorded? && !s.a.failed && s.ab == []
    ensures Enabled(SideOf(s, A), SendStep(Accepted))
    ensures WithSide(s, A, Do(SideOf(s, A), SendStep(Accepted)))
      == s.(a := s.a.(poster := Idle), ab := if s.a.poster.frame.Some? then [s.a.poster.frame.value] else [])
  {
    hide NodeOk;
  }

  lemma FailIs(s: Sys)
    requires NodeOk(s.a) && !s.a.failed
    ensures Enabled(SideOf(s, A), FailStep(0))
    ensures WithSide(s, A, Do(SideOf(s, A), FailStep(0))) == s.(a := s.a.(failed := true), ab := [])
  {
    hide NodeOk;
    assert s.ab[..0] == [];
  }

  lemma PollsIs(s: Sys)
    requires NodeOk(s.a)
    ensures var step := PollStep(s.a.sendJfc, 0, false, 1, 0);
      && Enabled(SideOf(s, A), step)
      && WithSide(s, A, Do(SideOf(s, A), step)) == s.(a := Poll(s.a, s.a.sendJfc, 0, false, 1, 0))
  {
    hide Poll;
  }

  /** The WR is outstanding and its frame is gone with the wire. */
  lemma StrandLone(op: Op) returns (states: seq<Sys>, steps: seq<(Who, Step)>)
    ensures Alone(states, steps) && states[|steps|] == Sys(Stranded(Outstanding(FreshNode(), op)), FreshNode(), [], [])
  {
    states, steps := PostLone(op);
    OutstandingShape(FreshNode(), op);
    hide Alone, FreshNode, Outstanding, IsRun, Do, Enabled, Fresh, Resting;
    var s3 := states[|steps|];
    SendIs(s3);
    var s4 := s3.(a := s3.a.(poster := Idle), ab := if s3.a.poster.frame.Some? then [s3.a.poster.frame.value] else []);
    states, steps := AloneExtended(states, steps, s4, SendStep(Accepted));
    FailIs(s4);
    var s5 := s4.(a := s4.a.(failed := true), ab := []);
    states, steps := AloneExtended(states, steps, s5, FailStep(0));
  }

  /** The poll, which looked at the wire before it failed, completes the WR. */
  lemma SucceedsUnsent(op: Op) returns (states: seq<Sys>, steps: seq<(Who, Step)>)
    requires StaleStatus.Silent(op)
    ensures Alone(states, steps)
    ensures var s := states[|steps|]; Succeeded(s.a, 0, op) && s.ab == [] && s.ba == []
  {
    states, steps := StrandLone(op);
    OutstandingShape(FreshNode(), op);
    assert Resting(FreshNode());
    hide Alone, FreshNode, Outstanding, IsRun, Do, Enabled, Fresh;
    var s5 := states[|steps|];
    Completes(s5.a);
    PollsIs(s5);
    hide Poll;
    var s6 := s5.(a := Poll(s5.a, s5.a.sendJfc, 0, false, 1, 0));
    states, steps := AloneExtended(states, steps, s6, PollStep(s5.a.sendJfc, 0, false, 1, 0));
  }

  // ---- which success means what ----

  /** A WRITE_IMM reports success although its frame never left the node and nothing was copied. */
  lemma ImmSucceedsUnsent() returns (states: seq<Sys>, steps: seq<(Who, Step)>)
    ensures IsRun(states, steps)
    ensures var s := states[|steps|];
      && Succeeded(s.a, 0, WriteImm) && s.b.copied == [] && s.ab == [] && s.ba == []
      && !BytesArrived(states, |steps|, A, 0)
  {
    states, steps := SucceedsUnsent(WriteImm);
    var job := states[|steps|].a.posted[0];
    var c := Copy(job.req, job.wr.remote, job.wr.token, job.data);
    forall t | 0 <= t < |steps| ensures !Copies(SideOf(states[t], B), SideOf(states[t + 1], B), c) {
      NoRegionNoCopy(SideOf(states[t], B), SideOf(states[t + 1], B), c);
    }
    hide Copies, IsRun;
  }

  /** Of the two writes, exactly the one that waits for its ack is safe. */
  lemma WriteSafetyExactly(op: Op)
    requires op == Write || op == WriteImm
    ensures Safe(op) <==> op == Write
  {
    hide IsRun, BytesArrived;
    if op == Write {
      forall states: seq<Sys>, steps: seq<(Who, Step)>, k: nat, who: Who, j: nat
        | IsRun(states, steps) && k < |states| && Succeeded(NodeOf(states[k], who), j, op)
        ensures BytesArrived(states, k, who, j)
      {
        WriteSafety(states, steps, k, who, j);
      }
    } else {
      var states, steps := ImmSucceedsUnsent();
      LengthOf(states, steps);
      assert Succeeded(NodeOf(states[|steps|], A), 0, op);
    }
  }

  /** Before state k, the peer has handled a frame. */
  ghost predicate Heard(steps: seq<(Who, Step)>, k: nat, who: Who) {
    exists t :: 0 <= t < k && t < |steps| && steps[t].0 == Other(who) && steps[t].1.DeliverStep?
  }

  /** In every run, every successful completion of this opcode means that the peer heard of something. */
  ghost predicate Acknowledged(op: Op) {
    forall states: seq<Sys>, steps: seq<(Who, Step)>, k: nat, who: Who, j: nat ::
      IsRun(states, steps) && k < |states| && Succeeded(NodeOf(states[k], who), j, op) ==> Heard(steps, k, who)
  }

  lemma OnlyDeliveryLogs(x: Side, step: Step)
    requires Enabled(x, step) && !step.DeliverStep?
    ensures Do(x, step).node.copied == x.node.copied && Do(x, step).node.served == x.node.served
  {
    hide Poll, Record, SendRefused, PlanWr;
    match step
    case RecordStep(submitted) => RecordSame(x.node, submitted);
    case SendStep(_) => RefusedSame(x.node);
    case PollStep(jfc, count, wireErr, flits, backstop) => PollSame(x.node, jfc, count, wireErr, flits, backstop);
    case _ =>
  }

  /** A node that has handled no frame has copied and served nothing. */
  lemma {:induction false} DeafNode(states: seq<Sys>, steps: seq<(Who, Step)>, k: nat, who: Who)
    requires IsRun(states, steps) && k < |states| && !Heard(steps, k, Other(who))
    ensures NodeOf(states[k], who).copied == [] && NodeOf(states[k], who).served == []
  {
    hide Enabled, Do;
    if k == 0 {
    } else {
      assert TwoNodeRuns.Next(states[k - 1], states[k], steps[k - 1]);
      assert !Heard(steps, k - 1, Other(who));
      DeafNode(states, steps, k - 1, who);
      hide Fresh;
      if steps[k - 1].0 == who {
        OnlyDeliveryLogs(SideOf(states[k - 1], who), steps[k - 1].1);
      }
    }
  }

  lemma AnsweredIsHeard(states: seq<Sys>, steps: seq<(Who, Step)>, k: nat, who: Who, j: nat, op: Op)
    requires IsRun(states, steps) && k < |states| && Succeeded(NodeOf(states[k], who), j, op)
    requires op == Write || op == Read
    ensures Heard(steps, k, who)
  {
    hide IsRun, Heard;
    SuccessFulfilled(states, steps, k, who, j, op);
    if !Heard(steps, k, who) {
      DeafNode(states, steps, k, Other(who));
      assert false;
    }
  }

  /**
   Success needs the peer exactly for WRITE and READ: a SEND, a WRITE_IMM or an atomic can report it
   in a run in which the peer takes no step at all.
   */
  lemma AcknowledgedExactly(op: Op)
    ensures Acknowledged(op) <==> op == Write || op == Read
  {
    hide IsRun;
    if op == Write || op == Read {
      forall states: seq<Sys>, steps: seq<(Who, Step)>, k: nat, who: Who, j: nat
        | IsRun(states, steps) && k < |states| && Succeeded(NodeOf(states[k], who), j, op)
        ensures Heard(steps, k, who)
      {
        AnsweredIsHeard(states, steps, k, who, j, op);
      }
    } else {
      var states, steps := SucceedsUnsent(op);
      LengthOf(states, steps);
      assert Succeeded(NodeOf(states[|steps|], A), 0, op) && !Heard(steps, |steps|, A);
    }
  }
}
