/**
 Fetch-and-add from many contexts on one word (the atomics of mmio_b, as the concurrent
 counter application uses them): no update is lost and every WR fetches a distinct prefix sum.
 */
module AtomicCounter {
  import opened Words
  import opened GuestMemory
  import opened PageTable
  import opened MrAccess
  import opened MrCopy
  import opened JfcQueue
  import opened Completion
  import opened DataPlane

  const WORD: nat := 8

  /** Where an 8-byte object lives: token and virtual address. */
  datatype Place = Place(tok: U32, va: U64)

  function Remote(wr: Wr): Place { Place(wr.remTok, wr.remVa) }
  function Local(wr: Wr): Place { Place(wr.locTok, wr.locVa) }

  ghost function At(ram: Ram, mrs: MrTable, p: Place): (pas: seq<nat>)
    requires p.tok in mrs
    ensures |pas| == WORD
  {
    MrPas(ram, mrs, p.tok, p.va, WORD)
  }

  ghost function Value(ram: Ram, mrs: MrTable, p: Place): nat
    requires p.tok in mrs
  {
    UnLe(Gather(ram.bytes, At(ram, mrs, p)))
  }

  /** Each place is mapped to eight distinct bytes, and none holds a descriptor of another. */
  ghost predicate Places(ram: Ram, mrs: MrTable, ps: set<Place>) {
    && TableOk(mrs) && PageAligned(ram.ranges)
    && (forall p :: p in ps ==> Mapped(ram, mrs, p.tok, p.va, WORD) && Distinct(At(ram, mrs, p)))
    && (forall p, q :: p in ps && q in ps ==> MrTablesSafe(ram, mrs, p.tok, p.va, WORD, At(ram, mrs, q)))
  }

  /** The result slots are apart from the counter. */
  ghost predicate Apart(ram: Ram, mrs: MrTable, counter: Place, ps: set<Place>)
    requires counter.tok in mrs && forall p :: p in ps ==> p.tok in mrs
  {
    forall p :: p in ps ==> Disjoint(At(ram, mrs, counter), At(ram, mrs, p))
  }

  /** A store that spares the descriptors of the places keeps them. */
  lemma SparingStoreKeepsPlaces(ram: Ram, mrs: MrTable, ps: set<Place>, pas: seq<nat>, data: seq<Byte>)
    requires Places(ram, mrs, ps) && |pas| == |data|
    requires forall p :: p in ps ==> MrTablesSafe(ram, mrs, p.tok, p.va, WORD, pas)
    ensures
      var ram' := ram.(bytes := Scatter(ram.bytes, pas, data));
      && Places(ram', mrs, ps)
      && forall p :: p in ps ==> At(ram', mrs, p) == At(ram, mrs, p)
  {
    var ram' := ram.(bytes := Scatter(ram.bytes, pas, data));
    forall p | p in ps
      ensures SameWalks(mrs[p.tok].mmu, ram, ram', Addresses(p.va, WORD)) && At(ram', mrs, p) == At(ram, mrs, p)
    {
      StoreKeepsPas(ram, mrs, p.tok, p.va, WORD, pas, data);
    }
    forall p | p in ps ensures Mapped(ram', mrs, p.tok, p.va, WORD) {
      assert Resident(ram, At(ram, mrs, p));
    }
  }

  lemma StoreKeepsPlaces(ram: Ram, mrs: MrTable, ps: set<Place>, q: Place, data: seq<Byte>)
    requires Places(ram, mrs, ps) && q in ps && |data| == WORD
    ensures
      var ram' := ram.(bytes := Scatter(ram.bytes, At(ram, mrs, q), data));
      && Places(ram', mrs, ps)
      && forall p :: p in ps ==> At(ram', mrs, p) == At(ram, mrs, p)
  {
    SparingStoreKeepsPlaces(ram, mrs, ps, At(ram, mrs, q), data);
  }

  /** The two stores of an atomic: fetched bytes to the result slot, new word to the counter. */
  ghost function Updated(ram: Ram, mrs: MrTable, wr: Wr): Ram
    requires Remote(wr).tok in mrs && Local(wr).tok in mrs
  {
    var w, l := At(ram, mrs, Remote(wr)), At(ram, mrs, Local(wr));
    var raw := Gather(ram.bytes, w);
    Pow256Values();
    ram.(bytes := Scatter(Scatter(ram.bytes, l, raw), w, Le(WORD, NewValue(wr, UnLe(raw)))))
  }

  /** The delivery of the fetched bytes: one flat store, through the pipeline or not. */
  lemma FetchedIsStored(nic: Nic, wr: Wr, ps: set<Place>)
    requires Places(nic.ram, nic.mrs, ps) && Remote(wr) in ps && Local(wr) in ps
    requires Disjoint(At(nic.ram, nic.mrs, Remote(wr)), At(nic.ram, nic.mrs, Local(wr)))
    ensures
      var ram, mrs := nic.ram, nic.mrs;
      var raw := Gather(ram.bytes, At(ram, mrs, Remote(wr)));
      var ram1 := ram.(bytes := Scatter(ram.bytes, At(ram, mrs, Local(wr)), raw));
      && MrRead(ram, mrs, wr.remTok, wr.remVa, WORD) == Some(raw)
      && MrWrite(ram, mrs, wr.locTok, wr.locVa, raw) == Written(ram1, true)
      && PipeCopy(ram, Hbm(), mrs, wr.locTok, wr.locVa, wr.remTok, wr.remVa, WORD) == Written(ram1, true)
  {
    var ram, mrs := nic.ram, nic.mrs;
    MappedRead(ram, mrs, wr.remTok, wr.remVa, WORD);
    MappedRead(ram, mrs, wr.locTok, wr.locVa, WORD);
    MrWriteIsBytewise(ram, mrs, wr.locTok, wr.locVa, Gather(ram.bytes, At(ram, mrs, Remote(wr))));
    PipeCopyIsCopy(ram, Hbm(), mrs, wr.locTok, wr.locVa, wr.remTok, wr.remVa, WORD);
  }

  lemma WordIsStored(ram: Ram, mrs: MrTable, p: Place, ps: set<Place>, data: seq<Byte>)
    requires Places(ram, mrs, ps) && p in ps && |data| == WORD
    ensures MrWrite(ram, mrs, p.tok, p.va, data) == Written(ram.(bytes := Scatter(ram.bytes, At(ram, mrs, p), data)), true)
  {
    MappedRead(ram, mrs, p.tok, p.va, WORD);
    MrWriteIsBytewise(ram, mrs, p.tok, p.va, data);
  }

  lemma AtomicIsUpdate(nic: Nic, wr: Wr, ps: set<Place>)
    requires Places(nic.ram, nic.mrs, ps) && Remote(wr) in ps && Local(wr) in ps
    requires Disjoint(At(nic.ram, nic.mrs, Remote(wr)), At(nic.ram, nic.mrs, Local(wr)))
    ensures AtomicUpdate(nic, wr) == Written(Updated(nic.ram, nic.mrs, wr), true)
  {
    var ram, mrs := nic.ram, nic.mrs;
    var raw := Gather(ram.bytes, At(ram, mrs, Remote(wr)));
    FetchedIsStored(nic, wr, ps);
    StoreKeepsPlaces(ram, mrs, ps, Local(wr), raw);
    Pow256Values();
    WordIsStored(ram.(bytes := Scatter(ram.bytes, At(ram, mrs, Local(wr)), raw)), mrs, Remote(wr), ps,
                 Le(WORD, NewValue(wr, UnLe(raw))));
  }

  /** After the update the counter holds the new word and the result slot the fetched one. */
  lemma UpdateEffect(ram: Ram, mrs: MrTable, wr: Wr, ps: set<Place>)
    requires Places(ram, mrs, ps) && Remote(wr) in ps && Local(wr) in ps
    requires Disjoint(At(ram, mrs, Remote(wr)), At(ram, mrs, Local(wr)))
    ensures Value(ram, mrs, Remote(wr)) < WORD64
    ensures
      var ram' := Updated(ram, mrs, wr);
      && Places(ram', mrs, ps)
      && (forall p :: p in ps ==> At(ram', mrs, p) == At(ram, mrs, p))
      && Value(ram', mrs, Remote(wr)) == NewValue(wr, Value(ram, mrs, Remote(wr)))
      && Value(ram', mrs, Local(wr)) == Value(ram, mrs, Remote(wr))
  {
    var w, l := At(ram, mrs, Remote(wr)), At(ram, mrs, Local(wr));
    var raw := Gather(ram.bytes, w);
    Pow256Values();
    var new8 := Le(WORD, NewValue(wr, UnLe(raw)));
    var b1 := Scatter(ram.bytes, l, raw);
    StoreKeepsPlaces(ram, mrs, ps, Local(wr), raw);
    StoreKeepsPlaces(ram.(bytes := b1), mrs, ps, Remote(wr), new8);
    GatherScatter(b1, w, new8);
    UnLeLe(WORD, NewValue(wr, UnLe(raw)));
    assert Disjoint(l, w);
    GatherUntouched(b1, w, new8, l);
    GatherScatter(ram.bytes, l, raw);
  }

  // ---- one FADD ----

  /** While FADDs execute: the places are as they were, with the same translations. */
  ghost predicate Counting(nic: Nic, nic0: Nic, ps: set<Place>) {
    && Places(nic0.ram, nic0.mrs, ps) && Places(nic.ram, nic.mrs, ps)
    && forall p :: p in ps ==> At(nic.ram, nic.mrs, p) == At(nic0.ram, nic0.mrs, p)
  }

  ghost predicate Ready(nic: Nic, nic0: Nic, wr: Wr, counter: Place, ps: set<Place>) {
    && Counting(nic, nic0, ps)
    && counter in ps && Apart(nic0.ram, nic0.mrs, counter, ps - {counter})
    && wr.op == OP_FADD && Remote(wr) == counter && Local(wr) in ps - {counter}
  }

  ghost predicate Done(nic: Nic, nic': Nic, nic0: Nic, wr: Wr, counter: Place, ps: set<Place>)
    requires Ready(nic, nic0, wr, counter, ps)
  {
    && Counting(nic', nic0, ps)
    && Value(nic'.ram, nic'.mrs, counter) == (Value(nic.ram, nic.mrs, counter) + wr.val) % WORD64
    && Value(nic'.ram, nic'.mrs, Local(wr)) == Value(nic.ram, nic.mrs, counter)
    && nic'.log == nic.log + [Raised(wr.sendJfc, SendCqe(wr.len, wr.op, wr.uctx, true))]
  }

  lemma UpdateIsDone(nic: Nic, nic': Nic, nic0: Nic, wr: Wr, counter: Place, ps: set<Place>)
    requires Ready(nic, nic0, wr, counter, ps)
    requires nic' == Complete(nic.(ram := Updated(nic.ram, nic.mrs, wr)), wr.sendJfc, SendCqe(wr.len, wr.op, wr.uctx, true))
    ensures Done(nic, nic', nic0, wr, counter, ps)
  {
    UpdateEffect(nic.ram, nic.mrs, wr, ps);
  }

  lemma FaddIsAtomic(nic: Nic, ctx: nat, wr: Wr)
    requires wr.op == OP_FADD
    ensures
      var w := AtomicUpdate(nic, wr);
      Exec(nic, ctx, wr) == Complete(nic.(ram := w.ram), wr.sendJfc, SendCqe(wr.len, wr.op, wr.uctx, w.ok))
  {
  }

  lemma FaddDone(nic: Nic, nic0: Nic, ctx: nat, wr: Wr, counter: Place, ps: set<Place>)
    requires Ready(nic, nic0, wr, counter, ps)
    ensures Done(nic, Exec(nic, ctx, wr), nic0, wr, counter, ps)
  {
    FaddIsAtomic(nic, ctx, wr);
    AtomicIsUpdate(nic, wr, ps);
    UpdateIsDone(nic, Exec(nic, ctx, wr), nic0, wr, counter, ps);
  }

  // ---- any number of contexts, any interleaving ----

  /**
   A run of WRs with anything calm in between: ready[i] is what the environment makes of states[i]
   before the i-th WR, which comes from some context, is executed.
   */
  ghost predicate IsRun<S>(x: (S, nat, Wr) -> S, calm: (S, S) -> bool, states: seq<S>, ready: seq<S>, wrs: seq<(nat, Wr)>) {
    && |states| == |wrs| + 1 && |ready| == |wrs|
    && (forall i :: 0 <= i < |wrs| ==> calm(states[i], ready[i]))
    && (forall i :: 0 <= i < |wrs| ==> states[i + 1] == x(ready[i], wrs[i].0, wrs[i].1))
  }

  function Operands(wrs: seq<(nat, Wr)>): nat {
    if wrs == [] then 0 else Operands(wrs[..|wrs| - 1]) + wrs[|wrs| - 1].1.val
  }

  /** An FADD on the counter, with its result slot among the given places. */
  ghost predicate FaddOn(wr: Wr, counter: Place, slots: set<Place>) {
    wr.op == OP_FADD && Remote(wr) == counter && Local(wr) in slots
  }

  ghost predicate AllFadd(wrs: seq<(nat, Wr)>, counter: Place, slots: set<Place>) {
    forall i :: 0 <= i < |wrs| ==> FaddOn(wrs[i].1, counter, slots)
  }

  /** One indivisible update: the counter is advanced and its old value fetched. */
  ghost predicate Stepped<S>(inv: S -> bool, val: (S, Place) -> nat, s: S, s': S, wr: Wr, counter: Place) {
    && inv(s')
    && val(s', counter) == (val(s, counter) + wr.val) % WORD64
    && val(s', Local(wr)) == val(s, counter)
  }

  ghost predicate Indivisible<S(!new)>(x: (S, nat, Wr) -> S, inv: S -> bool, val: (S, Place) -> nat,
                                       counter: Place, slots: set<Place>) {
    forall s: S, ctx: nat, wr: Wr :: inv(s) && FaddOn(wr, counter, slots) ==>
      Stepped(inv, val, s, x(s, ctx, wr), wr, counter)
  }

  /** What a calm environment leaves alone: the invariant and the counter, not the result slots. */
  ghost predicate Calms<S(!new)>(calm: (S, S) -> bool, inv: S -> bool, val: (S, Place) -> nat, counter: Place) {
    forall s: S, s': S :: inv(s) && calm(s, s') ==> inv(s') && val(s', counter) == val(s, counter)
  }

  lemma ModAdd(a: nat, b: nat)
    ensures (a % WORD64 + b) % WORD64 == (a + b) % WORD64
  {
  }

  /** One WR after a calm stretch. */
  lemma CalmThenUpdate<S(!new)>(x: (S, nat, Wr) -> S, calm: (S, S) -> bool, inv: S -> bool, val: (S, Place) -> nat,
      s: S, r: S, ctx: nat, wr: Wr, counter: Place, slots: set<Place>)
    requires Indivisible(x, inv, val, counter, slots) && Calms(calm, inv, val, counter)
    requires inv(s) && calm(s, r) && FaddOn(wr, counter, slots)
    ensures Stepped(inv, val, s, x(r, ctx, wr), wr, counter)
  {
    assert inv(r) && val(r, counter) == val(s, counter);
    assert Stepped(inv, val, r, x(r, ctx, wr), wr, counter);
  }

  /** After k WRs the counter is its first value plus the sum of k operands, modulo 2^64. */
  lemma {:induction false} SumOfOperands<S(!new)>(
      x: (S, nat, Wr) -> S, calm: (S, S) -> bool, inv: S -> bool, val: (S, Place) -> nat,
      states: seq<S>, ready: seq<S>, wrs: seq<(nat, Wr)>, k: nat, counter: Place, slots: set<Place>)
    requires Indivisible(x, inv, val, counter, slots) && Calms(calm, inv, val, counter) && AllFadd(wrs, counter, slots)
    requires IsRun(x, calm, states, ready, wrs) && k < |states|
    requires inv(states[0]) && val(states[0], counter) < WORD64
    ensures inv(states[k])
    ensures val(states[k], counter) == (val(states[0], counter) + Operands(wrs[..k])) % WORD64
  {
    hide Indivisible, Calms;
    if k == 0 {
    } else {
      SumOfOperands(x, calm, inv, val, states, ready, wrs, k - 1, counter, slots);
      assert FaddOn(wrs[k - 1].1, counter, slots);
      assert wrs[..k][..k - 1] == wrs[..k - 1];
      CalmThenUpdate(x, calm, inv, val, states[k - 1], ready[k - 1], wrs[k - 1].0, wrs[k - 1].1, counter, slots);
      assert states[k - 1 + 1] == x(ready[k - 1], wrs[k - 1].0, wrs[k - 1].1);
      ModAdd(val(states[0], counter) + Operands(wrs[..k - 1]), wrs[k - 1].1.val);
    }
  }

  /** The sums before and after: what the counter is, and what the k-th WR fetches. */
  lemma PrefixSums<S(!new)>(x: (S, nat, Wr) -> S, calm: (S, S) -> bool, inv: S -> bool, val: (S, Place) -> nat,
      states: seq<S>, ready: seq<S>, wrs: seq<(nat, Wr)>, k: nat, counter: Place, slots: set<Place>)
    requires Indivisible(x, inv, val, counter, slots) && Calms(calm, inv, val, counter) && AllFadd(wrs, counter, slots)
    requires IsRun(x, calm, states, ready, wrs) && k < |states|
    requires inv(states[0]) && val(states[0], counter) < WORD64
    ensures val(states[k], counter) == (val(states[0], counter) + Operands(wrs[..k])) % WORD64
    ensures k < |wrs| ==>
      val(states[k + 1], Local(wrs[k].1)) == (val(states[0], counter) + Operands(wrs[..k])) % WORD64
  {
    hide Indivisible, Calms;
    SumOfOperands(x, calm, inv, val, states, ready, wrs, k, counter, slots);
    if k < |wrs| {
      assert FaddOn(wrs[k].1, counter, slots);
      CalmThenUpdate(x, calm, inv, val, states[k], ready[k], wrs[k].0, wrs[k].1, counter, slots);
    }
  }

  lemma {:induction false} UnitOperands(wrs: seq<(nat, Wr)>)
    requires forall i :: 0 <= i < |wrs| ==> wrs[i].1.val == 1
    ensures Operands(wrs) == |wrs|
    decreases |wrs|
  {
    if wrs == [] {
    } else {
      UnitOperands(wrs[..|wrs| - 1]);
    }
  }

  /** Adding 1 from zero: after k WRs the counter is k, and the k-th WR fetches k. */
  lemma CountUp<S(!new)>(x: (S, nat, Wr) -> S, calm: (S, S) -> bool, inv: S -> bool, val: (S, Place) -> nat,
      states: seq<S>, ready: seq<S>, wrs: seq<(nat, Wr)>, counter: Place, slots: set<Place>)
    requires Indivisible(x, inv, val, counter, slots) && Calms(calm, inv, val, counter) && AllFadd(wrs, counter, slots)
    requires IsRun(x, calm, states, ready, wrs) && inv(states[0]) && val(states[0], counter) == 0
    requires |wrs| < WORD64 && forall i :: 0 <= i < |wrs| ==> wrs[i].1.val == 1
    ensures val(states[|wrs|], counter) == |wrs|
    ensures forall k :: 0 <= k < |wrs| ==> val(states[k + 1], Local(wrs[k].1)) == k
  {
    hide Indivisible, Calms;
    SumOfOperands(x, calm, inv, val, states, ready, wrs, |wrs|, counter, slots);
    UnitOperands(wrs[..|wrs|]);
    forall k | 0 <= k < |wrs| ensures val(states[k + 1], Local(wrs[k].1)) == k {
      PrefixSums(x, calm, inv, val, states, ready, wrs, k, counter, slots);
      UnitOperands(wrs[..k]);
    }
  }

  // ---- the NIC ----

  /** The 64-bit word at a place. */
  ghost function WordAt(nic: Nic, p: Place): nat {
    if p.tok in nic.mrs then Value(nic.ram, nic.mrs, p) else 0
  }

  /** Counter and result slots are set up for concurrent FADDs. */
  ghost predicate Shared(nic: Nic, counter: Place, slots: set<Place>) {
    && Places(nic.ram, nic.mrs, slots + {counter})
    && counter !in slots && Apart(nic.ram, nic.mrs, counter, slots)
  }

  lemma DoneEffect(n: Nic, n': Nic, nic: Nic, wr: Wr, counter: Place, slots: set<Place>, ps: set<Place>)
    requires ps == slots + {counter} && Ready(n, nic, wr, counter, ps) && Done(n, n', nic, wr, counter, ps)
    ensures Counting(n', nic, ps)
    ensures WordAt(n', counter) == (WordAt(n, counter) + wr.val) % WORD64
    ensures WordAt(n', Local(wr)) == WordAt(n, counter)
  {
    hide Places, At, Apart, Value;
    PlacesTokens(n.ram, n.mrs, ps);
    PlacesTokens(n'.ram, n'.mrs, ps);
  }

  ghost function Keeps(nic: Nic, ps: set<Place>): Nic -> bool { n => Counting(n, nic, ps) }

  lemma FaddSteps(n: Nic, nic: Nic, ctx: nat, wr: Wr, counter: Place, slots: set<Place>, ps: set<Place>)
    requires ps == slots + {counter} && Shared(nic, counter, slots)
    requires Counting(n, nic, ps) && FaddOn(wr, counter, slots)
    ensures Stepped(Keeps(nic, ps), WordAt, n, Exec(n, ctx, wr), wr, counter)
  {
    hide Exec, Places, Value;
    assert ps - {counter} == slots;
    FaddDone(n, nic, ctx, wr, counter, ps);
    DoneEffect(n, Exec(n, ctx, wr), nic, wr, counter, slots, ps);
  }

  lemma NicIsIndivisible(nic: Nic, counter: Place, slots: set<Place>, ps: set<Place>)
    requires ps == slots + {counter} && Shared(nic, counter, slots)
    ensures Indivisible(Exec, Keeps(nic, ps), WordAt, counter, slots)
  {
    forall n: Nic, ctx: nat, wr: Wr | Keeps(nic, ps)(n) && FaddOn(wr, counter, slots)
      ensures Stepped(Keeps(nic, ps), WordAt, n, Exec(n, ctx, wr), wr, counter)
    {
      FaddSteps(n, nic, ctx, wr, counter, slots, ps);
    }
  }

  lemma Starts(nic: Nic, counter: Place, slots: set<Place>, ps: set<Place>)
    requires ps == slots + {counter} && Shared(nic, counter, slots)
    ensures Keeps(nic, ps)(nic)
  {
    hide Exec;
  }

  lemma WordBound(nic: Nic, p: Place)
    ensures WordAt(nic, p) < WORD64
  {
    Pow256Values();
  }

  // ---- what may happen between two FADDs ----

  /** Anything that keeps the places and their translations, and leaves the counter word alone. */
  ghost function Calm(nic0: Nic, counter: Place, ps: set<Place>): (Nic, Nic) -> bool {
    (n, n') => Counting(n', nic0, ps) && WordAt(n', counter) == WordAt(n, counter)
  }

  lemma CalmCalms(nic0: Nic, counter: Place, ps: set<Place>)
    ensures Calms(Calm(nic0, counter, ps), Keeps(nic0, ps), WordAt, counter)
  {
    hide Counting, WordAt;
  }

  /** What the host does to the NIC while an application runs: poll and post, store, register. */
  datatype Host =
    | Queueing(queues: Queues<Cqe>, recvs: seq<Recv>, pending: seq<Pending>)
    | Storing(pas: seq<nat>, data: seq<Byte>)
    | Registering(token: U32, vaBase: U64, len: U64, ttbr0: U64)

  function Act(n: Nic, h: Host): Nic
    requires h.Storing? ==> |h.pas| == |h.data|
  {
    match h
    case Queueing(queues, recvs, pending) => n.(queues := queues, recvs := recvs, pending := pending)
    case Storing(pas, data) => n.(ram := n.ram.(bytes := Scatter(n.ram.bytes, pas, data)))
    case Registering(token, vaBase, len, ttbr0) => n.(mrs := Register(n.mrs, token, vaBase, len, ttbr0))
  }

  /** A store misses the counter and every descriptor of a place; a registration is of another token. */
  ghost predicate Spares(n: Nic, h: Host, counter: Place, ps: set<Place>)
    requires counter.tok in n.mrs && forall p :: p in ps ==> p.tok in n.mrs
  {
    match h
    case Queueing(_, _, _) => true
    case Storing(pas, data) =>
      && |pas| == |data| && Disjoint(At(n.ram, n.mrs, counter), pas)
      && forall p :: p in ps ==> MrTablesSafe(n.ram, n.mrs, p.tok, p.va, WORD, pas)
    case Registering(token, _, _, _) => forall p :: p in ps ==> p.tok != token
  }

  lemma PlacesTokens(ram: Ram, mrs: MrTable, ps: set<Place>)
    requires Places(ram, mrs, ps)
    ensures forall p :: p in ps ==> p.tok in mrs
  {
  }

  /** A change of the NIC that keeps the places, their addresses and the counter bytes is calm. */
  lemma CalmByAddresses(n: Nic, n': Nic, nic0: Nic, counter: Place, ps: set<Place>)
    requires Counting(n, nic0, ps) && counter in ps && Places(n'.ram, n'.mrs, ps)
    requires forall p :: p in ps ==> p.tok in n.mrs && p.tok in n'.mrs && At(n'.ram, n'.mrs, p) == At(n.ram, n.mrs, p)
    requires Gather(n'.ram.bytes, At(n.ram, n.mrs, counter)) == Gather(n.ram.bytes, At(n.ram, n.mrs, counter))
    ensures Calm(nic0, counter, ps)(n, n')
  {
    PlacesTokens(nic0.ram, nic0.mrs, ps);
    hide At, Places;
    assert Counting(n', nic0, ps) by {
      forall p | p in ps ensures At(n'.ram, n'.mrs, p) == At(nic0.ram, nic0.mrs, p) {
        assert At(n.ram, n.mrs, p) == At(nic0.ram, nic0.mrs, p);
      }
    }
    assert WordAt(n', counter) == WordAt(n, counter);
  }

  lemma StoreIsCalm(n: Nic, nic0: Nic, counter: Place, ps: set<Place>, pas: seq<nat>, data: seq<Byte>)
    requires Counting(n, nic0, ps) && counter in ps && Spares(n, Storing(pas, data), counter, ps)
    ensures Calm(nic0, counter, ps)(n, Act(n, Storing(pas, data)))
  {
    PlacesTokens(n.ram, n.mrs, ps);
    hide Places, Scatter, Calm, At;
    SparingStoreKeepsPlaces(n.ram, n.mrs, ps, pas, data);
    GatherUntouched(n.ram.bytes, pas, data, At(n.ram, n.mrs, counter));
    CalmByAddresses(n, Act(n, Storing(pas, data)), nic0, counter, ps);
  }

  lemma RegisterIsCalm(n: Nic, nic0: Nic, counter: Place, ps: set<Place>, h: Host)
    requires Counting(n, nic0, ps) && counter in ps && h.Registering? && Spares(n, h, counter, ps)
    ensures Calm(nic0, counter, ps)(n, Act(n, h))
  {
    var n' := Act(n, h);
    RegisterKeepsTableOk(n.mrs, h.token, h.vaBase, h.len, h.ttbr0);
    forall p | p in ps ensures p.tok in n'.mrs && n'.mrs[p.tok] == n.mrs[p.tok] {
    }
    hide TableOk, Calm, Act;
    assert n'.ram == n.ram;
    CalmByAddresses(n, n', nic0, counter, ps);
  }

  lemma QueueingIsCalm(n: Nic, n': Nic, nic0: Nic, counter: Place, ps: set<Place>)
    requires Counting(n, nic0, ps) && counter in ps && n'.ram == n.ram && n'.mrs == n.mrs
    ensures Calm(nic0, counter, ps)(n, n')
  {
    PlacesTokens(n.ram, n.mrs, ps);
    hide Places, At, Calm;
    CalmByAddresses(n, n', nic0, counter, ps);
  }

  lemma ActIsCalm(n: Nic, nic0: Nic, counter: Place, ps: set<Place>, h: Host)
    requires Counting(n, nic0, ps) && counter in ps && Spares(n, h, counter, ps)
    ensures Calm(nic0, counter, ps)(n, Act(n, h))
  {
    hide Calm, Spares, Counting;
    match h
    case Queueing(_, _, _) => QueueingIsCalm(n, Act(n, h), nic0, counter, ps);
    case Storing(pas, data) => StoreIsCalm(n, nic0, counter, ps, pas, data);
    case Registering(_, _, _, _) => RegisterIsCalm(n, nic0, counter, ps, h);
  }

  /** Any number of calm events in a row is calm. */
  lemma {:induction false} ManyActsAreCalm(ns: seq<Nic>, hs: seq<Host>, nic0: Nic, counter: Place, ps: set<Place>)
    requires |ns| == |hs| + 1 && counter in ps && Counting(ns[0], nic0, ps)
    requires forall i :: 0 <= i < |hs| ==> hs[i].Storing? ==> |hs[i].pas| == |hs[i].data|
    requires forall i :: 0 <= i < |hs| ==> ns[i + 1] == Act(ns[i], hs[i])
    requires forall i :: 0 <= i < |hs| && Counting(ns[i], nic0, ps) ==>
      (forall p :: p in ps ==> p.tok in ns[i].mrs) && Spares(ns[i], hs[i], counter, ps)
    ensures Calm(nic0, counter, ps)(ns[0], ns[|hs|])
    decreases |hs|
  {
    hide Counting, Act, Spares, WordAt;
    if hs == [] {
    } else {
      var k := |hs| - 1;
      ManyActsAreCalm(ns[..|hs|], hs[..k], nic0, counter, ps);
      assert ns[k + 1] == Act(ns[k], hs[k]);
      ActIsCalm(ns[k], nic0, counter, ps, hs[k]);
    }
  }

  /** Clearing a result slot before the next FADD, as the application does, is such a store. */
  lemma ClearingSlotSpares(n: Nic, nic0: Nic, counter: Place, slots: set<Place>, slot: Place, data: seq<Byte>)
    requires Shared(nic0, counter, slots) && Counting(n, nic0, slots + {counter}) && slot in slots && |data| == WORD
    ensures Spares(n, Storing(At(n.ram, n.mrs, slot), data), counter, slots + {counter})
  {
    hide At, TableOk, Mapped;
  }

  /**
   No lost updates, over every interleaving of FADDs from any number of contexts with any calm
   events in between: after k WRs the counter is its first value plus the sum of their operands
   modulo 2^64, and the k-th WR finds in its result slot the sum before it.
   */
  lemma NoLostUpdates(states: seq<Nic>, ready: seq<Nic>, wrs: seq<(nat, Wr)>, k: nat, counter: Place, slots: set<Place>)
    requires k < |states| && IsRun(Exec, Calm(states[0], counter, slots + {counter}), states, ready, wrs)
    requires Shared(states[0], counter, slots) && AllFadd(wrs, counter, slots)
    ensures WordAt(states[k], counter) == (WordAt(states[0], counter) + Operands(wrs[..k])) % WORD64
    ensures k < |wrs| ==>
      WordAt(states[k + 1], Local(wrs[k].1)) == (WordAt(states[0], counter) + Operands(wrs[..k])) % WORD64
  {
    var ps := slots + {counter};
    hide *;
    Starts(states[0], counter, slots, ps);
    NicIsIndivisible(states[0], counter, slots, ps);
    CalmCalms(states[0], counter, ps);
    WordBound(states[0], counter);
    PrefixSums(Exec, Calm(states[0], counter, ps), Keeps(states[0], ps), WordAt, states, ready, wrs, k, counter, slots);
  }

  /**
   The concurrent counter: N contexts adding 1 K times each, from zero. The counter ends at
   N * K and the values fetched are 0, 1, ..., N * K - 1, each exactly once.
   */
  lemma ConcurrentCounter(states: seq<Nic>, ready: seq<Nic>, wrs: seq<(nat, Wr)>, clients: nat, rounds: nat,
                          counter: Place, slots: set<Place>)
    requires |states| > 0 && IsRun(Exec, Calm(states[0], counter, slots + {counter}), states, ready, wrs)
    requires Shared(states[0], counter, slots) && AllFadd(wrs, counter, slots) && WordAt(states[0], counter) == 0
    requires |wrs| == clients * rounds < WORD64 && forall i :: 0 <= i < |wrs| ==> wrs[i].1.val == 1
    ensures WordAt(states[|wrs|], counter) == clients * rounds
    ensures forall k :: 0 <= k < |wrs| ==> WordAt(states[k + 1], Local(wrs[k].1)) == k
  {
    var ps := slots + {counter};
    hide Exec, Shared, Keeps, Calm, WordAt, AllFadd;
    Starts(states[0], counter, slots, ps);
    NicIsIndivisible(states[0], counter, slots, ps);
    CalmCalms(states[0], counter, ps);
    CountUp(Exec, Calm(states[0], counter, ps), Keeps(states[0], ps), WordAt, states, ready, wrs, counter, slots);
  }
}
