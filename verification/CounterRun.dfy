/**
 The multi-client atomic counter from doorbell to memory: clients that each post `rounds`
 fetch-and-add WRs through their own doorbells, in any interleaving of stores.
 */
module CounterRun {
  import opened Words
  import opened DataPlane
  import opened WrCodec
  import Doorbell
  import opened AtomicCounter

  /** Every WR in the log was executed for its context. */
  lemma {:induction false} InByContext(log: seq<(nat, Wr)>, i: nat)
    requires i < |log|
    ensures log[i].1 in Doorbell.ByContext(log, log[i].0)
    decreases |log|
  {
    if i < |log| - 1 {
      InByContext(log[..|log| - 1], i);
      var w := Doorbell.ByContext(log[..|log| - 1], log[i].0);
      assert log[..|log| - 1][i] == log[i];
      assert Doorbell.ByContext(log, log[i].0)[..|w|] == w;
    }
  }

  /** WRs executed for the first n contexts. */
  function Total(log: seq<(nat, Wr)>, n: nat): nat {
    if n == 0 then 0 else Total(log, n - 1) + |Doorbell.ByContext(log, n - 1)|
  }

  lemma {:induction false} TotalNext(log: seq<(nat, Wr)>, n: nat)
    requires log != []
    ensures Total(log, n) == Total(log[..|log| - 1], n) + if log[|log| - 1].0 < n then 1 else 0
  {
    if n == 0 {
    } else {
      TotalNext(log, n - 1);
    }
  }

  lemma {:induction false} TotalEmpty(n: nat)
    ensures Total([], n) == 0
  {
    if n == 0 {
    } else {
      TotalEmpty(n - 1);
    }
  }

  lemma {:induction false} TotalIsAll(log: seq<(nat, Wr)>, n: nat)
    requires forall i :: 0 <= i < |log| ==> log[i].0 < n
    ensures Total(log, n) == |log|
    decreases |log|
  {
    if log == [] {
      TotalEmpty(n);
    } else {
      TotalNext(log, n);
      TotalIsAll(log[..|log| - 1], n);
    }
  }

  lemma {:induction false} TotalOfEqual(log: seq<(nat, Wr)>, n: nat, clients: nat, rounds: nat)
    requires forall c :: 0 <= c < n ==> |Doorbell.ByContext(log, c)| == if c < clients then rounds else 0
    ensures Total(log, n) == (if n <= clients then n else clients) * rounds
  {
    if n == 0 {
    } else {
      TotalOfEqual(log, n - 1, clients, rounds);
      if n <= clients {
        assert (n - 1) * rounds + rounds == n * rounds;
      }
    }
  }

  /** Context ids in the log are those of claimed contexts. */
  ghost predicate Claimed(log: seq<(nat, Wr)>) {
    forall i :: 0 <= i < |log| ==> log[i].0 < Doorbell.MAX_CTX
  }

  lemma StepClaimed(s: Doorbell.State, c: nat)
    requires Doorbell.StateOk(s) && c < Doorbell.MAX_CTX && s.drivers[c].done < |s.drivers[c].posts|
    requires Claimed(s.log)
    ensures Claimed(Doorbell.Step(s, c).log)
  {
    Doorbell.StepLog(s, c);
    hide Doorbell.Step, Doorbell.StateOk;
    var log := Doorbell.Step(s, c).log;
    forall i | 0 <= i < |log| ensures log[i].0 < Doorbell.MAX_CTX {
      if log != s.log && i < |s.log| {
        assert log[..|s.log|][i] == log[i];
      }
    }
  }

  lemma {:induction false} LogContexts(states: seq<Doorbell.State>, schedule: seq<nat>, k: nat)
    requires Doorbell.IsRun(states, schedule) && Doorbell.Start(states[0]) && k < |states|
    ensures Claimed(states[k].log)
  {
    hide Doorbell.Step, Doorbell.StateOk;
    if k == 0 {
    } else {
      hide Claimed;
      LogContexts(states, schedule, k - 1);
      assert states[k] == Doorbell.Step(states[k - 1], schedule[k - 1]);
      StepClaimed(states[k - 1], schedule[k - 1]);
    }
  }

  /** Every post is a fetch-and-add of 1 on the counter with a result slot of its own kind. */
  ghost predicate Increments(ps: seq<Post>, counter: Place, slots: set<Place>) {
    forall i :: 0 <= i < |ps| ==> ps[i].val == 1 && FaddOn(Seen(ps[i]), counter, slots)
  }

  /** A finished run: `clients` contexts have stored `rounds` WRs each, the others none. */
  ghost predicate Finished(s: Doorbell.State, clients: nat, rounds: nat, counter: Place, slots: set<Place>) {
    && Doorbell.StateOk(s) && clients <= Doorbell.MAX_CTX
    && forall c :: 0 <= c < Doorbell.MAX_CTX ==>
        && s.drivers[c].done == |s.drivers[c].posts| == (if c < clients then rounds else 0)
        && Increments(s.drivers[c].posts, counter, slots)
  }

  lemma LogIsIncrements(states: seq<Doorbell.State>, schedule: seq<nat>, clients: nat, rounds: nat,
                        counter: Place, slots: set<Place>)
    requires Doorbell.IsRun(states, schedule) && Doorbell.Start(states[0])
    requires Finished(states[|schedule|], clients, rounds, counter, slots)
    ensures var log := states[|schedule|].log;
      && |log| == clients * rounds && AllFadd(log, counter, slots)
      && forall i :: 0 <= i < |log| ==> log[i].1.val == 1
  {
    var s := states[|schedule|];
    forall c | 0 <= c < Doorbell.MAX_CTX
      ensures Doorbell.ByContext(s.log, c) == Doorbell.SeenAll(s.drivers[c].posts)
    {
      Doorbell.ExecutesAsPosted(states, schedule, |schedule|, c);
      assert s.drivers[c].posts[..s.drivers[c].done] == s.drivers[c].posts;
    }
    LogContexts(states, schedule, |schedule|);
    TotalIsAll(s.log, Doorbell.MAX_CTX);
    TotalOfEqual(s.log, Doorbell.MAX_CTX, clients, rounds);
    hide Doorbell.Step, Doorbell.IsRun, Doorbell.Start, FaddOn;
    forall i | 0 <= i < |s.log| ensures s.log[i].1.val == 1 && FaddOn(s.log[i].1, counter, slots) {
      InByContext(s.log, i);
      var c := s.log[i].0;
      var j :| 0 <= j < |s.drivers[c].posts| && s.log[i].1 == Doorbell.SeenAll(s.drivers[c].posts)[j];
      assert Increments(s.drivers[c].posts, counter, slots);
      assert s.log[i].1 == Seen(s.drivers[c].posts[j]);
    }
  }

  /**
   N clients, K increments each, posted through N doorbells in any interleaving of eight-byte
   stores, with polls, result slots cleared and other calm events in between: the counter ends at
   N * K, and the k-th executed WR fetched k.
   */
  lemma CounterIsExact(states: seq<Doorbell.State>, schedule: seq<nat>, nics: seq<Nic>, ready: seq<Nic>,
                       clients: nat, rounds: nat, counter: Place, slots: set<Place>)
    requires Doorbell.IsRun(states, schedule) && Doorbell.Start(states[0])
    requires Finished(states[|schedule|], clients, rounds, counter, slots) && clients * rounds < WORD64
    requires |nics| > 0 && IsRun(Exec, Calm(nics[0], counter, slots + {counter}), nics, ready, states[|schedule|].log)
    requires Shared(nics[0], counter, slots) && WordAt(nics[0], counter) == 0
    ensures |nics| == clients * rounds + 1
    ensures WordAt(nics[clients * rounds], counter) == clients * rounds
    ensures forall k :: 0 <= k < clients * rounds ==> WordAt(nics[k + 1], Local(states[|schedule|].log[k].1)) == k
  {
    assert |schedule| < |states|;
    hide Exec, Calm, Shared, WordAt, AllFadd, Doorbell.IsRun, Doorbell.Start, Finished;
    LogIsIncrements(states, schedule, clients, rounds, counter, slots);
    ConcurrentCounter(nics, ready, states[|schedule|].log, clients, rounds, counter, slots);
  }
}
