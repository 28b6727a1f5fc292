/**
 A run in which a WRITE and then a READ of the same range succeed: what one node wrote to the
 other is what it reads back.
 */
module ServiceRuns {
  import opened Words
  import opened GuestMemory
  import opened SideChannel
  import opened Rings
  import opened Provider
  import opened TwoNodeRuns
  import opened StaleRuns
  import opened Service

  /** A run goes on with any enabled step of either node. */
  lemma Goes(states: seq<Sys>, steps: seq<(Who, Step)>, who: Who, step: Step, s': Sys)
    returns (states': seq<Sys>, steps': seq<(Who, Step)>)
    requires IsRun(states, steps)
    requires var s := states[|steps|];
      Enabled(SideOf(s, who), step) && s' == WithSide(s, who, Do(SideOf(s, who), step))
    requires |s'.a.built| < WORD32 && |s'.b.built| < WORD32
    ensures IsRun(states', steps') && |states'| == |steps'| + 1 && states'[|steps'|] == s'
    ensures |steps'| == |steps| + 1 && steps' == steps + [(who, step)] && states'[|steps|] == states[|steps|]
  {
    hide Do, Enabled, Fresh;
    states', steps' := states + [s'], steps + [(who, step)];
    forall i | 0 <= i < |steps'| ensures TwoNodeRuns.Next(states'[i], states'[i + 1], steps'[i]) {
      if i < |steps| {
        assert TwoNodeRuns.Next(states[i], states[i + 1], steps[i]);
      }
    }
  }

  /** A WRITE or READ that the provider accepts. */
  predicate Plain(wr: Wr) {
    (wr.op == Write || wr.op == Read) && wr.local != 0 && 0 < wr.len <= MAX_BODY - 20
  }

  /** Ready to post: nothing outstanding, nothing to answer, nothing on the completion ring. */
  predicate Ready(n: Node) {
    && NodeOk(n) && n.poster.Idle? && !n.failed && n.reply.None? && |n.built| < 10 && n.reqSeq == 1 + |n.built|
    && n.out.head == n.out.tail && n.jfcs[n.sendJfc].ring.head == n.jfcs[n.sendJfc].ring.tail
    && |n.posted| == |n.done|
  }

  /** The frame that asks for a WR. */
  ghost function Asked(n: Node, wr: Wr): Frame {
    if wr.op == Write then WriteRq(wr.remote, wr.token, wr.len, n.reqSeq, Loaded(n.mem, wr.local, wr.len))
    else ReadRq(wr.remote, wr.token, wr.len, n.reqSeq, 0)
  }

  /** The one outstanding WR and all that posting it leaves alone. */
  ghost predicate Waiting(n: Node, n': Node, wr: Wr) {
    && NodeOk(n') && n'.poster.Idle? && !n'.failed && n'.reply.None? && |n'.built| == |n.built| + 1
    && n'.reqSeq == n.reqSeq + 1 && Count(n'.out) == 1 && n'.done == n.done
    && n'.mem == n.mem && n'.jfcs == n.jfcs && n'.sendJfc == n.sendJfc && n'.regions == n.regions
    && |n'.posted| == |n.posted| + 1 && n'.posted[..|n.posted|] == n.posted && n'.posted[|n.posted|].wr == wr
    && var e := n'.out.slots[n'.out.head];
       e.req == n.reqSeq && e.op == wr.op && e.len == wr.len && e.lva == (if wr.op == Read then wr.local else 0)
  }

  function Posted(n: Node, wr: Wr): Node
    requires Ready(n) && Plain(wr)
  {
    Record(Build(Check(n, wr), 0, 0, true), true)
  }

  lemma PostShape(n: Node, wr: Wr)
    requires Ready(n) && Plain(wr)
    ensures Check(n, wr).poster == Checked(wr) && Build(Check(n, wr), 0, 0, true).poster.Built?
    ensures |Check(n, wr).built| == |n.built| && |Build(Check(n, wr), 0, 0, true).built| == |n.built| + 1
    ensures var n1 := Posted(n, wr);
      && n1.poster == Recorded(Some(Asked(n, wr))) && !n1.failed
      && Waiting(n, n1.(poster := Idle), wr)
  {
    hide Gather, Span;
    GatherLoads(n.mem, wr.local, wr.len);
  }

  /** A posts a WR and its frame is under way. */
  lemma PostAndSend(states: seq<Sys>, steps: seq<(Who, Step)>, wr: Wr)
    returns (states': seq<Sys>, steps': seq<(Who, Step)>)
    requires IsRun(states, steps) && Plain(wr)
    requires var s := states[|steps|]; Ready(s.a) && |s.b.built| < 10 && s.ab == []
    ensures IsRun(states', steps') && |states'| == |steps'| + 1
    ensures var s, s' := states[|steps|], states'[|steps'|];
      Waiting(s.a, s'.a, wr) && s'.b == s.b && s'.ab == [Asked(s.a, wr)] && s'.ba == s.ba
  {
    var s := states[|steps|];
    var n := s.a;
    PostShape(n, wr);
    hide IsRun, Check, Build, Record, Waiting, Asked, Plain;
    var s1 := s.(a := Check(n, wr));
    states', steps' := Goes(states, steps, A, CheckStep(wr), s1);
    var s2 := s.(a := Build(s1.a, 0, 0, true));
    states', steps' := Goes(states', steps', A, BuildStep(0, 0, true), s2);
    var s3 := s.(a := Posted(n, wr));
    assert |s3.a.built| == |n.built| + 1 by { WaitingBuilt(n, s3.a, wr); }
    states', steps' := Goes(states', steps', A, RecordStep(true), s3);
    var s4 := s.(a := s3.a.(poster := Idle), ab := [Asked(n, wr)]);
    assert [] + [Asked(n, wr)] == [Asked(n, wr)];
    states', steps' := Goes(states', steps', A, SendStep(Accepted), s4);
  }

  lemma WaitingBuilt(n: Node, n1: Node, wr: Wr)
    requires Waiting(n, n1.(poster := Idle), wr)
    ensures |n1.built| == |n.built| + 1
  {
  }

  /** A responder between requests. */
  predicate Idles(n: Node) {
    NodeOk(n) && n.reply.None? && !n.failed && |n.built| < 10
  }

  /** The peer handles the frame. */
  lemma Handle(states: seq<Sys>, steps: seq<(Who, Step)>, who: Who, f: Frame)
    returns (states': seq<Sys>, steps': seq<(Who, Step)>)
    requires IsRun(states, steps)
    requires var s := states[|steps|];
      && NodeOk(NodeOf(s, who)) && NodeOf(s, who).reply.None? && SideOf(s, who).rx == [f]
      && |s.a.built| < 10 && |s.b.built| < 10
    ensures IsRun(states', steps') && |states'| == |steps'| + 1 == |steps| + 2
    ensures Delivers(states', steps', |steps|, who, f, Whole)
    ensures states'[|steps|] == states[|steps|]
    ensures var s, s' := states[|steps|], states'[|steps'|];
      && NodeOf(s', Other(who)) == NodeOf(s, Other(who)) && SideOf(s', who).rx == []
      && SideOf(s', who).tx == SideOf(s, who).tx && NodeOf(s', who).built == NodeOf(s, who).built
  {
    var s := states[|steps|];
    hide IsRun, DataCb;
    var s' := WithSide(s, who, Do(SideOf(s, who), DeliverStep(Whole)));
    assert [f][1..] == [];
    SameBuiltFrame(NodeOf(s, who), Tag(f), Body(f));
    states', steps' := Goes(states, steps, who, DeliverStep(Whole), s');
  }

  lemma SameBuiltFrame(n: Node, tag: Byte, buf: seq<Byte>)
    requires NodeOk(n)
    ensures DataCb(n, tag, buf, Whole).built == n.built
  {
    hide Live, First, Scatter, Gather, RegionValid, Parse;
  }

  /** The answer goes out. */
  lemma Answer(states: seq<Sys>, steps: seq<(Who, Step)>) returns (states': seq<Sys>, steps': seq<(Who, Step)>)
    requires IsRun(states, steps)
    requires var s := states[|steps|];
      NodeOk(s.b) && s.b.reply.Some? && !s.b.failed && s.ba == [] && |s.a.built| < 10 && |s.b.built| < 10
    ensures IsRun(states', steps') && |states'| == |steps'| + 1
    ensures var s := states[|steps|];
      states'[|steps'|] == s.(b := s.b.(reply := None), ba := [s.b.reply.value])
  {
    var s := states[|steps|];
    hide IsRun;
    assert [] + [s.b.reply.value] == [s.b.reply.value];
    states', steps' := Goes(states, steps, B, ReplyStep(Accepted), s.(b := s.b.(reply := None), ba := [s.b.reply.value]));
  }

  lemma ServeWrite(states: seq<Sys>, steps: seq<(Who, Step)>, f: Frame)
    returns (states': seq<Sys>, steps': seq<(Who, Step)>)
    requires IsRun(states, steps) && f.WriteRq?
    requires var s := states[|steps|];
      && s.ab == [f] && s.ba == [] && Idles(s.b) && |s.a.built| < 10
      && Held(s.b.regions, f.va, |f.data|, f.token)
    ensures IsRun(states', steps') && |states'| == |steps'| + 1
    ensures var s, s' := states[|steps|], states'[|steps'|];
      && s'.a == s.a && s'.ab == [] && s'.ba == [WriteAck(f.req, 0)]
      && Idles(s'.b) && s'.b.regions == s.b.regions && Stored(s.b.mem, s'.b.mem, f.va, f.data)
  {
    hide IsRun, Held, Stored, Delivers;
    states', steps' := Handle(states, steps, B, f);
    WriteServed(states', steps', |steps|, B, f, Whole);
    states', steps' := Answer(states', steps');
  }

  lemma ServeRead(states: seq<Sys>, steps: seq<(Who, Step)>, f: Frame)
    returns (states': seq<Sys>, steps': seq<(Who, Step)>)
    requires IsRun(states, steps) && f.ReadRq? && f.len <= MAX_BODY - 20
    requires var s := states[|steps|];
      && s.ab == [f] && s.ba == [] && Idles(s.b) && |s.a.built| < 10
      && Held(s.b.regions, f.va, f.len, f.token)
    ensures IsRun(states', steps') && |states'| == |steps'| + 1
    ensures var s, s' := states[|steps|], states'[|steps'|];
      && s'.a == s.a && s'.ab == [] && s'.ba == [ReadRsp(f.req, f.len, 0, Loaded(s.b.mem, f.va, f.len))]
      && Idles(s'.b) && s'.b.regions == s.b.regions && s'.b.mem == s.b.mem
  {
    hide IsRun, Held, Delivers;
    states', steps' := Handle(states, steps, B, f);
    ReadServed(states', steps', |steps|, B, f, Whole);
    states', steps' := Answer(states', steps');
  }

  /** A lone answered WR is retired by a poll with a flit in hand. */
  lemma Retires(n: Node)
    requires NodeOk(n) && Count(n.out) == 1 && n.out.slots[n.out.head].req == 0
    requires n.jfcs[n.sendJfc].ring.head == n.jfcs[n.sendJfc].ring.tail
    ensures var n' := Poll(n, n.sendJfc, 1, false, 1, 0);
      && n' == n.(out := n'.out, jfcs := n'.jfcs, done := n'.done, timedOut := n'.timedOut)
      && n'.done == n.done + [Completion(n.out.slots[n.out.head])]
      && n'.out.head == n'.out.tail && n'.jfcs[n.sendJfc].ring.head == n'.jfcs[n.sendJfc].ring.tail
  {
    hide Live;
    var n1 := Settle(n, false);
    assert Harvest(n, false, 1, 0) == Harvest(Retire(n1), false, 0, 0);
    var n2 := Retire(n1);
    assert n2.out.head == n2.out.tail && Harvest(n2, false, 0, 0) == n2;
    var j := n2.jfcs[n2.sendJfc];
    var j1 := j.(ring := Pop(j.ring), polled := j.polled + [j.ring.slots[j.ring.head]]);
    assert Take(j, 1) == Take(j1, 0) == j1;
  }

  lemma PollLone(states: seq<Sys>, steps: seq<(Who, Step)>) returns (states': seq<Sys>, steps': seq<(Who, Step)>)
    requires IsRun(states, steps)
    requires var n := states[|steps|].a;
      && NodeOk(n) && Count(n.out) == 1 && n.out.slots[n.out.head].req == 0 && n.out.slots[n.out.head].status == 0
      && n.jfcs[n.sendJfc].ring.head == n.jfcs[n.sendJfc].ring.tail
      && |n.posted| == |n.done| + 1 && n.poster.Idle? && !n.failed && n.reply.None? && |n.built| < 10
      && n.reqSeq == 1 + |n.built| && |states[|steps|].b.built| < 10
    ensures IsRun(states', steps') && |states'| == |steps'| + 1
    ensures var s, s' := states[|steps|], states'[|steps'|];
      && s'.b == s.b && s'.ab == s.ab && s'.ba == s.ba && Ready(s'.a) && s'.a.mem == s.a.mem && s'.a.posted == s.a.posted
      && |s'.a.done| == |s.a.done| + 1 && s'.a.done[..|s.a.done|] == s.a.done && s'.a.done[|s.a.done|].status == 0
      && |s'.a.built| == |s.a.built|
  {
    var s := states[|steps|];
    hide IsRun, Poll;
    Retires(s.a);
    PollIs(s);
    var s' := s.(a := Poll(s.a, s.a.sendJfc, 1, false, 1, 0));
    states', steps' := Goes(states, steps, A, PollStep(s.a.sendJfc, 1, false, 1, 0), s');
  }

  /** The ack comes back and the WRITE completes. */
  lemma FinishWrite(states: seq<Sys>, steps: seq<(Who, Step)>, n: Node, wr: Wr)
    returns (states': seq<Sys>, steps': seq<(Who, Step)>)
    requires IsRun(states, steps) && wr.op == Write && Ready(n) && |n.built| < 9
    requires var s := states[|steps|];
      Waiting(n, s.a, wr) && s.ba == [WriteAck(n.reqSeq, 0)] && Idles(s.b)
    ensures IsRun(states', steps') && |states'| == |steps'| + 1
    ensures var s, s' := states[|steps|], states'[|steps'|];
      && s'.b == s.b && s'.ab == s.ab && s'.ba == [] && Ready(s'.a) && s'.a.mem == n.mem
      && |s'.a.built| == |n.built| + 1 && s'.a.posted == s.a.posted
      && |s'.a.done| == |n.done| + 1 && s'.a.done[..|n.done|] == n.done && s'.a.done[|n.done|].status == 0
  {
    var s, f := states[|steps|], WriteAck(n.reqSeq, 0);
    hide IsRun, Live, Delivers;
    states', steps' := Handle(states, steps, A, f);
    AckAnswers(states', steps', |steps|, A, f, Whole);
    LiveAt(s.a.out, 0);
    assert FirstWrite(Live(s.a.out), 0, f.req);
    LiveAt(states'[|steps'|].a.out, 0);
    states', steps' := PollLone(states', steps');
  }

  /** The response comes back, its bytes land and the READ completes. */
  lemma FinishRead(states: seq<Sys>, steps: seq<(Who, Step)>, n: Node, wr: Wr, data: seq<Byte>)
    returns (states': seq<Sys>, steps': seq<(Who, Step)>)
    requires IsRun(states, steps) && wr.op == Read && wr.local != 0 && Ready(n) && |n.built| < 9 && |data| == wr.len
    requires var s := states[|steps|];
      Waiting(n, s.a, wr) && s.ba == [ReadRsp(n.reqSeq, wr.len, 0, data)] && Idles(s.b)
    ensures IsRun(states', steps') && |states'| == |steps'| + 1
    ensures var s, s' := states[|steps|], states'[|steps'|];
      && s'.b == s.b && s'.ab == s.ab && s'.ba == [] && Ready(s'.a) && Stored(n.mem, s'.a.mem, wr.local, data)
      && s'.a.posted == s.a.posted
      && |s'.a.done| == |n.done| + 1 && s'.a.done[..|n.done|] == n.done && s'.a.done[|n.done|].status == 0
  {
    var s, f := states[|steps|], ReadRsp(n.reqSeq, wr.len, 0, data);
    hide IsRun, Live, Delivers, Stored;
    states', steps' := Handle(states, steps, A, f);
    LiveAt(s.a.out, 0);
    assert FirstRead(Live(s.a.out), 0, f.req);
    ResponseAnswers(states', steps', |steps|, A, f, Whole, 0);
    assert data[..wr.len] == data;
    LiveAt(states'[|steps'|].a.out, 0);
    states', steps' := PollLone(states', steps');
  }

  /** B registers a range and A has the bytes to be written. */
  lemma Prepare(va: U64, token: U32, src: U64, data: seq<Byte>) returns (states: seq<Sys>, steps: seq<(Who, Step)>)
    requires |data| < WORD64
    ensures IsRun(states, steps) && |states| == |steps| + 1
    ensures var s := states[|steps|];
      && Ready(s.a) && s.a.posted == [] && s.a.built == [] && Loaded(s.a.mem, src, |data|) == data
      && Idles(s.b) && Held(s.b.regions, va, |data|, token) && s.ab == [] && s.ba == []
  {
    var n := FreshNode();
    states, steps := [Sys(n, n, [], [])], [];
    assert IsRun(states, steps) && Ready(n) && Idles(n) && !n.regions[0].active;
    RegisterGrants(n.regions, va, |data|, token, va, |data|, token);
    ScatterStores(n.mem, src, data);
    assert n.built == [] && n.posted == [];
    hide IsRun, FreshNode, Register, Held, Scatter, First;
    var b := n.(regions := Register(n.regions, va, |data|, token));
    states, steps := Goes(states, steps, B, RegisterStep(va, |data|, token), Sys(n, b, [], []));
    var a := n.(mem := Scatter(n.mem, Span(src, |data|), data));
    states, steps := Goes(states, steps, A, StoreStep(src, data), Sys(a, b, [], []));
    assert Loaded(a.mem, src, |data|) == data;
  }

  /**
   What is written is read back: for every payload that fits a frame, every registered range and
   every two buffers of A there is a run in which A writes the payload to B, reads it back, and both
   WRs complete with success.
   */
  lemma WriteThenRead(va: U64, token: U32, src: U64, dst: U64, data: seq<Byte>)
    returns (states: seq<Sys>, steps: seq<(Who, Step)>)
    requires 0 < |data| <= MAX_BODY - 20 && src != 0 && dst != 0
    ensures IsRun(states, steps)
    ensures var s := states[|steps|];
      && Succeeded(s.a, 0, Write) && Succeeded(s.a, 1, Read)
      && Loaded(s.b.mem, va, |data|) == data && Loaded(s.a.mem, dst, |data|) == data
  {
    hide IsRun, Held, Waiting, Stored, Ready;
    states, steps := Prepare(va, token, src, data);
    var s0, write := states[|steps|], Wr(Write, 0, src, va, token, |data|);
    states, steps := PostAndSend(states, steps, write);
    WaitingFacts(s0.a, states[|steps|].a, write);
    states, steps := ServeWrite(states, steps, Asked(s0.a, write));
    assert Loaded(states[|steps|].b.mem, va, |data|) == data by { StoredLoads(s0.b.mem, states[|steps|].b.mem, va, data); }
    states, steps := FinishWrite(states, steps, s0.a, write);
    var s1, read := states[|steps|], Wr(Read, 0, dst, va, token, |data|);
    states, steps := PostAndSend(states, steps, read);
    WaitingFacts(s1.a, states[|steps|].a, read);
    states, steps := ServeRead(states, steps, Asked(s1.a, read));
    states, steps := FinishRead(states, steps, s1.a, read, data);
    StoredLoads(s1.a.mem, states[|steps|].a.mem, dst, data);
  }

  lemma WaitingFacts(n: Node, n': Node, wr: Wr)
    requires Ready(n) && Waiting(n, n', wr)
    ensures |n'.built| == |n.built| + 1 && n.reqSeq == 1 + |n.built| && |n.posted| == |n.done|
    ensures |n'.posted| == |n.posted| + 1 && n'.posted[..|n.posted|] == n.posted && n'.posted[|n.posted|].wr == wr
  {
  }

  lemma StoredLoads(mem: map<nat, Byte>, mem': map<nat, Byte>, va: nat, data: seq<Byte>)
    requires Stored(mem, mem', va, data)
    ensures Loaded(mem', va, |data|) == data
  {
  }
}
