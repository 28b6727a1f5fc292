/**
 The seven atomics: what each leaves in its word, stated bit by bit or in plain arithmetic; when
 they succeed and what they can change; and a lock taken by compare-and-swap from many contexts.
 */
module Atomics {
  import opened Words
  import opened GuestMemory
  import opened PageTable
  import opened MrAccess
  import opened MrCopy
  import opened JfcQueue
  import opened Completion
  import opened DataPlane
  import opened AtomicCounter
  import Protection
  import Transfers
  import Division

  predicate IsAtomic(op: Byte) { OP_CAS <= op <= OP_FXOR }

  predicate BitOf(x: nat, k: nat) { x / Pow2(k) % 2 == 1 }

  /** What the word becomes, by opcode. */
  ghost predicate Means(wr: Wr, was: nat, now: nat) {
    && now < WORD64
    && (wr.op == OP_CAS ==> (now == wr.val <==> was == wr.cmp || was == wr.val) && (was != wr.cmp ==> now == was))
    && (wr.op == OP_SWAP ==> now == wr.val)
    && (wr.op == OP_FADD ==> now == was + wr.val || now + WORD64 == was + wr.val)
    && (wr.op == OP_FSUB ==> now + wr.val == was || now + wr.val == was + WORD64)
    && (wr.op == OP_FAND ==> forall k: nat :: k < 64 ==> (BitOf(now, k) <==> BitOf(was, k) && BitOf(wr.val, k)))
    && (wr.op == OP_FOR ==> forall k: nat :: k < 64 ==> (BitOf(now, k) <==> BitOf(was, k) || BitOf(wr.val, k)))
    && (wr.op == OP_FXOR ==> forall k: nat :: k < 64 ==> (BitOf(now, k) <==> BitOf(was, k) != BitOf(wr.val, k)))
  }

  lemma HalfBit(x: nat, k: nat)
    requires k > 0
    ensures BitOf(x, k) <==> BitOf(x / 2, k - 1)
  {
    Division.DivDiv(x, 2, Pow2(k - 1));
  }

  lemma FirstBit(x: nat)
    ensures BitOf(x, 0) <==> x % 2 == 1
  {
  }

  lemma LowBit(x: nat, b: nat, rest: nat)
    requires b < 2 && x == b + 2 * rest
    ensures x % 2 == b && x / 2 == rest
  {
  }

  /** Each bit of a bitwise operation is the operation on the two bits. */
  lemma {:induction false} BitwiseBit(f: (bool, bool) -> bool, n: nat, a: nat, b: nat, k: nat)
    requires k < n
    ensures BitOf(Bitwise(f, n, a, b), k) <==> f(BitOf(a, k), BitOf(b, k))
  {
    var low := if f(a % 2 == 1, b % 2 == 1) then 1 else 0;
    LowBit(Bitwise(f, n, a, b), low, Bitwise(f, n - 1, a / 2, b / 2));
    hide BitOf, Bitwise;
    if k == 0 {
      FirstBit(Bitwise(f, n, a, b));
      FirstBit(a);
      FirstBit(b);
    } else {
      HalfBit(Bitwise(f, n, a, b), k);
      HalfBit(a, k);
      HalfBit(b, k);
      BitwiseBit(f, n - 1, a / 2, b / 2, k - 1);
    }
  }

  lemma NewValueMeans(wr: Wr, was: U64)
    requires IsAtomic(wr.op)
    ensures Means(wr, was, NewValue(wr, was))
  {
    hide BitOf, Bitwise;
    forall k: nat | k < 64
      ensures BitOf(Bitwise64((a, b) => a && b, was, wr.val), k) <==> BitOf(was, k) && BitOf(wr.val, k)
    {
      BitwiseBit((a, b) => a && b, 64, was, wr.val, k);
    }
    forall k: nat | k < 64
      ensures BitOf(Bitwise64((a, b) => a || b, was, wr.val), k) <==> BitOf(was, k) || BitOf(wr.val, k)
    {
      BitwiseBit((a, b) => a || b, 64, was, wr.val, k);
    }
    forall k: nat | k < 64
      ensures BitOf(Bitwise64((a, b) => a != b, was, wr.val), k) <==> BitOf(was, k) != BitOf(wr.val, k)
    {
      BitwiseBit((a, b) => a != b, 64, was, wr.val, k);
    }
  }

  // ---- one atomic ----

  /** An atomic on the word, with its result slot among the given places. */
  ghost predicate AtomicOn(wr: Wr, word: Place, slots: set<Place>) {
    IsAtomic(wr.op) && Remote(wr) == word && Local(wr) in slots
  }

  lemma ExecIsAtomic(nic: Nic, ctx: nat, wr: Wr)
    requires IsAtomic(wr.op)
    ensures var w := AtomicUpdate(nic, wr);
      Exec(nic, ctx, wr) == Complete(nic.(ram := w.ram), wr.sendJfc, Cqe(wr.len, wr.op, wr.uctx, 0, 0, 0, w.ok))
  {
    hide AtomicUpdate, Push;
  }

  lemma SlotApart(n: Nic, nic: Nic, wr: Wr, word: Place, slots: set<Place>, ps: set<Place>)
    requires ps == slots + {word} && Shared(nic, word, slots) && Counting(n, nic, ps) && AtomicOn(wr, word, slots)
    ensures word.tok in n.mrs && Local(wr).tok in n.mrs
    ensures Disjoint(At(n.ram, n.mrs, word), At(n.ram, n.mrs, Local(wr)))
  {
    PlacesTokens(n.ram, n.mrs, ps);
    PlacesTokens(nic.ram, nic.mrs, ps);
    hide Places, At, Disjoint;
    assert word in ps && Local(wr) in ps;
  }

  lemma UpdateKeeps(n: Nic, nic: Nic, wr: Wr, word: Place, slots: set<Place>, ps: set<Place>)
    requires ps == slots + {word} && Shared(nic, word, slots) && Counting(n, nic, ps) && AtomicOn(wr, word, slots)
    ensures var w := AtomicUpdate(n, wr);
      var n' := n.(ram := w.ram);
      && w.ok && Counting(n', nic, ps)
      && Means(wr, WordAt(n, word), WordAt(n', word)) && WordAt(n', Local(wr)) == WordAt(n, word)
  {
    hide Places, At, Value, AtomicUpdate, Updated, Means, Disjoint, NewValue, Shared;
    PlacesTokens(n.ram, n.mrs, ps);
    WordBound(n, word);
    SlotApart(n, nic, wr, word, slots, ps);
    AtomicIsUpdate(n, wr, ps);
    UpdateEffect(n.ram, n.mrs, wr, ps);
    NewValueMeans(wr, WordAt(n, word));
  }

  /** One atomic: the word becomes what its opcode means, the old word is delivered, and it completes. */
  lemma AtomicDone(n: Nic, nic: Nic, ctx: nat, wr: Wr, word: Place, slots: set<Place>)
    requires Shared(nic, word, slots) && Counting(n, nic, slots + {word}) && AtomicOn(wr, word, slots)
    ensures var n' := Exec(n, ctx, wr);
      && Counting(n', nic, slots + {word})
      && Means(wr, WordAt(n, word), WordAt(n', word)) && WordAt(n', Local(wr)) == WordAt(n, word)
      && n'.log == n.log + [Raised(wr.sendJfc, Cqe(wr.len, wr.op, wr.uctx, 0, 0, 0, true))]
  {
    hide Places, At, AtomicUpdate, Means, Exec, Shared;
    UpdateKeeps(n, nic, wr, word, slots, slots + {word});
    ExecIsAtomic(n, ctx, wr);
  }

  /** FSUB undoes FADD of the same operand. */
  lemma SubtractUndoesAdd(nic: Nic, ctx: nat, add: Wr, subtract: Wr, word: Place, slots: set<Place>)
    requires Shared(nic, word, slots) && AtomicOn(add, word, slots) && AtomicOn(subtract, word, slots)
    requires add.op == OP_FADD && subtract.op == OP_FSUB && add.val == subtract.val
    ensures WordAt(Exec(Exec(nic, ctx, add), ctx, subtract), word) == WordAt(nic, word)
  {
    hide Exec, WordAt;
    assert Counting(nic, nic, slots + {word});
    hide Shared, Counting;
    WordBound(nic, word);
    AtomicDone(nic, nic, ctx, add, word, slots);
    AtomicDone(Exec(nic, ctx, add), nic, ctx, subtract, word, slots);
  }

  // ---- a lock ----

  /** An attempt to take the lock: compare with 0, and leave a mark of one's own. */
  ghost predicate Attempt(wr: Wr, word: Place, slots: set<Place>) {
    AtomicOn(wr, word, slots) && wr.op == OP_CAS && wr.cmp == 0 && wr.val != 0
  }

  /** In every interleaving of attempts the lock keeps the mark of the first. */
  lemma {:induction false} LockIsHeld(states: seq<Nic>, ready: seq<Nic>, wrs: seq<(nat, Wr)>, k: nat,
                                      word: Place, slots: set<Place>)
    requires k < |states| && IsRun(Exec, Calm(states[0], word, slots + {word}), states, ready, wrs)
    requires Shared(states[0], word, slots) && WordAt(states[0], word) == 0
    requires forall i :: 0 <= i < |wrs| ==> Attempt(wrs[i].1, word, slots)
    ensures Counting(states[k], states[0], slots + {word})
    ensures WordAt(states[k], word) == if k == 0 then 0 else wrs[0].1.val
  {
    hide Exec, WordAt, Places, At;
    if k == 0 {
    } else {
      hide Shared, Counting;
      var ps := slots + {word};
      LockIsHeld(states, ready, wrs, k - 1, word, slots);
      var wr := wrs[k - 1].1;
      assert Attempt(wr, word, slots);
      assert Calm(states[0], word, ps)(states[k - 1], ready[k - 1]);
      AtomicDone(ready[k - 1], states[0], wrs[k - 1].0, wr, word, slots);
      assert states[k - 1 + 1] == Exec(ready[k - 1], wrs[k - 1].0, wr);
    }
  }

  /**
   Mutual exclusion: over every interleaving of attempts from any number of contexts, with any calm
   events in between, exactly the first fetches 0, and every other fetches the mark of the first.
   */
  lemma LockIsTakenOnce(states: seq<Nic>, ready: seq<Nic>, wrs: seq<(nat, Wr)>, k: nat, word: Place, slots: set<Place>)
    requires k < |wrs| && |states| == |wrs| + 1 && IsRun(Exec, Calm(states[0], word, slots + {word}), states, ready, wrs)
    requires Shared(states[0], word, slots) && WordAt(states[0], word) == 0
    requires forall i :: 0 <= i < |wrs| ==> Attempt(wrs[i].1, word, slots)
    ensures WordAt(states[k + 1], Local(wrs[k].1)) == if k == 0 then 0 else wrs[0].1.val
    ensures WordAt(states[k + 1], Local(wrs[k].1)) == 0 <==> k == 0
  {
    hide Exec, WordAt, Shared, Counting;
    LockIsHeld(states, ready, wrs, k, word, slots);
    var wr := wrs[k].1;
    assert Attempt(wr, word, slots) && Attempt(wrs[0].1, word, slots);
    assert Calm(states[0], word, slots + {word})(states[k], ready[k]);
    AtomicDone(ready[k], states[0], wrs[k].0, wr, word, slots);
  }

  // ---- success and failure ----

  /** If both regions are known, the words do not wrap and neither store hits a descriptor of either. */
  ghost predicate Clear(nic: Nic, wr: Wr) {
    && Transfers.Clear(nic, wr.locTok, wr.locVa, wr.remTok, wr.remVa, WORD)
    && (wr.locTok in nic.mrs && wr.remTok in nic.mrs ==> Protection.Spares(nic.ram, nic.mrs, wr.remTok, wr.remVa, WORD))
  }

  ghost predicate BothMapped(nic: Nic, wr: Wr) {
    Mapped(nic.ram, nic.mrs, wr.locTok, wr.locVa, WORD) && Mapped(nic.ram, nic.mrs, wr.remTok, wr.remVa, WORD)
  }

  /** Every byte that differs belongs to one of the two words and lies in its region. */
  ghost predicate OnlyWords(nic: Nic, ram': Ram, wr: Wr) {
    forall a: nat ::
      || Protection.Reached(nic.ram, nic.mrs, wr.locTok, wr.locVa, WORD, a)
      || Protection.Reached(nic.ram, nic.mrs, wr.remTok, wr.remVa, WORD, a)
      || Peek(ram'.bytes, a) == Peek(nic.ram.bytes, a)
  }

  lemma UnknownUpdates(nic: Nic, wr: Wr)
    requires !(wr.locTok in nic.mrs && wr.remTok in nic.mrs)
    ensures AtomicUpdate(nic, wr) == Written(nic.ram, false)
  {
    hide ReadPieces, WritePieces, RouteFrom, NewValue;
    var raw := MrRead(nic.ram, nic.mrs, wr.remTok, wr.remVa, 8);
    if raw.Some? && nic.pipe {
      var landed := RouteStep(nic.ram, Hbm(), nic.mrs, raw.value, wr.locTok, wr.locVa);
    }
  }

  /** The delivery of the old word. */
  ghost function Fetched(nic: Nic, wr: Wr, raw: seq<Byte>): Written {
    var p := PipeCopy(nic.ram, Hbm(), nic.mrs, wr.locTok, wr.locVa, wr.remTok, wr.remVa, WORD);
    if nic.pipe && p.ok then p
    else MrWrite(if nic.pipe then p.ram else nic.ram, nic.mrs, wr.locTok, wr.locVa, raw)
  }

  lemma FetchedStatus(nic: Nic, wr: Wr, raw: seq<Byte>)
    requires Clear(nic, wr) && wr.locTok in nic.mrs && wr.remTok in nic.mrs && |raw| == WORD
    requires Mapped(nic.ram, nic.mrs, wr.remTok, wr.remVa, WORD)
    ensures var d := Fetched(nic, wr, raw);
      && (d.ok <==> Mapped(nic.ram, nic.mrs, wr.locTok, wr.locVa, WORD))
      && Protection.Confined(nic.ram, d.ram, nic.mrs, wr.locTok, wr.locVa, WORD)
  {
    var ram, mrs, dt, dv := nic.ram, nic.mrs, wr.locTok, wr.locVa;
    hide PipeCopy, MrWrite, Mapped, Protection.Confined, Protection.Spares, Protection.Straight, Plus, TableOk, MrTablesSafe;
    Transfers.PipeCarries(nic, dt, dv, wr.remTok, wr.remVa, WORD);
    Protection.PlusZero(dv);
    Protection.ConfinedSelf(ram, mrs, dt, dv, WORD);
    var start := if nic.pipe then PipeCopy(ram, Hbm(), mrs, dt, dv, wr.remTok, wr.remVa, WORD).ram else ram;
    Protection.PartConfined(ram, start, mrs, dt, dv, WORD, 0, raw);
    Protection.PartWrites(ram, start, mrs, dt, dv, WORD, 0, raw);
  }

  /** The word is replaced, in a memory where only the result slot has changed. */
  lemma ReplacedStatus(nic: Nic, wr: Wr, ram1: Ram, word: seq<Byte>)
    requires Clear(nic, wr) && wr.locTok in nic.mrs && wr.remTok in nic.mrs && |word| == WORD
    requires Mapped(nic.ram, nic.mrs, wr.remTok, wr.remVa, WORD)
    requires Protection.Confined(nic.ram, ram1, nic.mrs, wr.locTok, wr.locVa, WORD)
    ensures var w := MrWrite(ram1, nic.mrs, wr.remTok, wr.remVa, word);
      w.ok && OnlyWords(nic, w.ram, wr)
  {
    var ram, mrs, t, va := nic.ram, nic.mrs, wr.remTok, wr.remVa;
    Protection.SourceWalks(ram, ram1, mrs, wr.locTok, wr.locVa, t, va, WORD);
    SameWalksSamePas(mrs[t].mmu, ram, ram1, Addresses(va, WORD));
    assert Protection.Spares(ram1, mrs, t, va, WORD);
    Protection.PlusZero(va);
    hide MrWrite, MrRead, Mapped, Protection.Straight, Protection.Spares, Plus, TableOk, MrTablesSafe, SameWalks, MrPas;
    Protection.PartReads(ram, ram1, mrs, t, va, WORD, 0, WORD);
    assert MrTablesSafe(ram1, mrs, t, va, WORD, MrPas(ram1, mrs, t, va, WORD)) by { SparesSafe(ram1, mrs, t, va); }
    MrWriteIsBytewise(ram1, mrs, t, va, word);
    Protection.WriteConfined(ram1, mrs, t, va, word);
  }

  lemma SparesSafe(ram: Ram, mrs: MrTable, token: U32, va: U64)
    requires token in mrs && Protection.Spares(ram, mrs, token, va, WORD)
    ensures MrTablesSafe(ram, mrs, token, va, WORD, MrPas(ram, mrs, token, va, WORD))
  {
  }

  /** An atomic succeeds exactly if both its words are in their regions and mapped; it changes no other byte. */
  lemma AtomicExactly(nic: Nic, ctx: nat, wr: Wr)
    requires IsAtomic(wr.op) && Clear(nic, wr)
    ensures var nic' := Exec(nic, ctx, wr);
      && nic'.log == nic.log + [Raised(wr.sendJfc, Cqe(wr.len, wr.op, wr.uctx, 0, 0, 0, BothMapped(nic, wr)))]
      && OnlyWords(nic, nic'.ram, wr) && nic'.mrs == nic.mrs && nic'.recvs == nic.recvs && nic'.pending == nic.pending
  {
    hide Exec, AtomicUpdate, Mapped, Push;
    ExecIsAtomic(nic, ctx, wr);
    if wr.locTok in nic.mrs && wr.remTok in nic.mrs {
      KnownUpdates(nic, wr);
    } else {
      UnknownUpdates(nic, wr);
      assert !BothMapped(nic, wr) by { MappedTokens(nic, wr); }
    }
  }

  lemma MappedTokens(nic: Nic, wr: Wr)
    ensures BothMapped(nic, wr) ==> wr.locTok in nic.mrs && wr.remTok in nic.mrs
  {
  }

  lemma KnownUpdates(nic: Nic, wr: Wr)
    requires Clear(nic, wr) && wr.locTok in nic.mrs && wr.remTok in nic.mrs
    ensures var w := AtomicUpdate(nic, wr); (w.ok <==> BothMapped(nic, wr)) && OnlyWords(nic, w.ram, wr)
  {
    var ram, mrs := nic.ram, nic.mrs;
    Protection.PlusZero(wr.remVa);
    Pow256Values();
    hide MrRead, MrWrite, PipeCopy, Mapped, NewValue, Plus, Protection.Straight, TableOk, MrTablesSafe, Protection.Spares;
    Protection.ConfinedSelf(ram, mrs, wr.locTok, wr.locVa, WORD);
    Protection.SourceWalks(ram, ram, mrs, wr.locTok, wr.locVa, wr.remTok, wr.remVa, WORD);
    Protection.PartReads(ram, ram, mrs, wr.remTok, wr.remVa, WORD, 0, WORD);
    var raw := MrRead(ram, mrs, wr.remTok, wr.remVa, 8);
    if raw.Some? {
      FetchedStatus(nic, wr, raw.value);
      var d := Fetched(nic, wr, raw.value);
      if d.ok {
        ReplacedStatus(nic, wr, d.ram, Le(8, NewValue(wr, UnLe(raw.value))));
      }
    }
  }
}
