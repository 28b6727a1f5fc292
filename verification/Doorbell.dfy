/**
 The doorbell: contexts store their flits eight bytes at a time, in any interleaving, and the NIC
 assembles and executes the work requests. Contexts and NIC together are one state machine.
 */
module Doorbell {
  import opened Words
  import opened Flits
  import opened DataPlane
  import opened WrCodec

  const MAX_CTX := 64
  const CTX_STRIDE := 0x100

  /** The control region of context c starts at c * CTX_STRIDE. */
  function Address(ctx: nat, local: nat): nat {
    ctx * CTX_STRIDE + local
  }

  /** Which context and which offset a control-region address means. */
  lemma AddressDecodes(ctx: nat, local: nat)
    requires ctx < MAX_CTX && local < CTX_STRIDE
    ensures var off := Address(ctx, local);
      off < MAX_CTX * CTX_STRIDE && off / CTX_STRIDE == ctx && off % CTX_STRIDE == local
  {
  }

  // ---- one context's slot in the NIC ----

  /** The slot being assembled, the last meta flit and whether it still waits for its extension. */
  datatype Door = Door(slot: seq<Byte>, meta: seq<Byte>, have: bool)

  predicate DoorOk(d: Door) {
    |d.slot| == FLIT && |d.meta| == FLIT
  }

  /** A store into the slot; the one that reaches its end fires, and may execute a WR. */
  function Store(d: Door, local: nat, data: seq<Byte>): (r: (Door, Option<Wr>))
    requires DoorOk(d) && local + |data| <= FLIT
    ensures DoorOk(r.0)
  {
    var slot := Put(d.slot, local, data);
    if local + |data| != FLIT then (d.(slot := slot), None)
    else
      var meta := if Sop(slot) then slot else d.meta;
      var have := d.have || Sop(slot);
      if Eop(slot) && have then (Door(Zeros(FLIT), meta, false), Some(Decode(meta, slot)))
      else (Door(Zeros(FLIT), meta, have), None)
  }

  // ---- the whole machine ----

  /** A context: its WRs, how many are fully stored, and how many words of the next one. */
  datatype Driver = Driver(posts: seq<Post>, done: nat, at: nat)

  /** The NIC executes WRs in the order of `log`, each with the context it came from. */
  datatype State = State(drivers: seq<Driver>, doors: seq<Door>, log: seq<(nat, Wr)>)

  predicate StateOk(s: State) {
    && |s.drivers| == MAX_CTX && |s.doors| == MAX_CTX
    && (forall c :: 0 <= c < MAX_CTX ==> DoorOk(s.doors[c]))
    && (forall c :: 0 <= c < MAX_CTX ==> s.drivers[c].done <= |s.drivers[c].posts| && s.drivers[c].at < 16)
  }

  /** Eight words of the meta flit, then eight of the extension flit. */
  function Word(p: Post, at: nat): (w: seq<Byte>)
    requires at < 16
    ensures |w| == 8
  {
    if at < 8 then Meta(p)[8 * at..8 * at + 8] else Ext(p)[8 * at - 64..8 * at - 56]
  }

  function Advance(d: Driver): Driver {
    if d.at + 1 == 16 then d.(done := d.done + 1, at := 0) else d.(at := d.at + 1)
  }

  /** Context c makes its next store. */
  function Step(s: State, c: nat): (s': State)
    requires StateOk(s) && c < MAX_CTX && s.drivers[c].done < |s.drivers[c].posts|
    ensures StateOk(s')
  {
    var d := s.drivers[c];
    var r := Store(s.doors[c], 8 * (d.at % 8), Word(d.posts[d.done], d.at));
    State(s.drivers[c := Advance(d)], s.doors[c := r.0], if r.1.Some? then s.log + [(c, r.1.value)] else s.log)
  }

  /** A run: any context that has words left may store next. */
  ghost predicate IsRun(states: seq<State>, schedule: seq<nat>) {
    && |states| == |schedule| + 1
    && (forall i :: 0 <= i < |states| ==> StateOk(states[i]))
    && forall i :: 0 <= i < |schedule| ==>
        && schedule[i] < MAX_CTX
        && states[i].drivers[schedule[i]].done < |states[i].drivers[schedule[i]].posts|
        && states[i + 1] == Step(states[i], schedule[i])
  }

  ghost predicate Start(s: State) {
    && StateOk(s) && s.log == []
    && forall c :: 0 <= c < MAX_CTX ==>
        s.drivers[c].done == 0 && s.drivers[c].at == 0 && s.doors[c].slot == Zeros(FLIT) && !s.doors[c].have
  }

  // ---- what each context gets executed ----

  /** The WRs executed for context c, in order. */
  function ByContext(log: seq<(nat, Wr)>, c: nat): seq<Wr> {
    if log == [] then []
    else
      var last := log[|log| - 1];
      ByContext(log[..|log| - 1], c) + if last.0 == c then [last.1] else []
  }

  function SeenAll(ps: seq<Post>): (ws: seq<Wr>)
    ensures |ws| == |ps|
  {
    seq(|ps|, i requires 0 <= i < |ps| => Seen(ps[i]))
  }

  /** The slot holds the words stored so far; the meta flit waits while its extension is stored. */
  ghost predicate HalfWay(d: Driver, door: Door)
    requires DoorOk(door) && d.at < 16
  {
    if d.at < 8 then
      && !door.have && door.slot[8 * d.at..] == Zeros(FLIT - 8 * d.at)
      && (d.done < |d.posts| ==> door.slot[..8 * d.at] == Meta(d.posts[d.done])[..8 * d.at])
    else
      && d.done < |d.posts|
      && door.have && door.meta == Meta(d.posts[d.done])
      && door.slot[8 * d.at - 64..] == Zeros(FLIT - (8 * d.at - 64))
      && door.slot[..8 * d.at - 64] == Ext(d.posts[d.done])[..8 * d.at - 64]
  }

  ghost predicate Faithful(s: State, c: nat)
    requires StateOk(s) && c < MAX_CTX
  {
    && HalfWay(s.drivers[c], s.doors[c])
    && ByContext(s.log, c) == SeenAll(s.drivers[c].posts[..s.drivers[c].done])
  }

  /** Storing the next word of a flit extends the part assembled by that word. */
  lemma Extends(slot: seq<Byte>, f: seq<Byte>, k: nat)
    requires |slot| == FLIT == |f| && k < 8
    requires slot[..8 * k] == f[..8 * k] && slot[8 * k..] == Zeros(FLIT - 8 * k)
    ensures var slot' := Put(slot, 8 * k, f[8 * k..8 * k + 8]);
      slot'[..8 * k + 8] == f[..8 * k + 8] && slot'[8 * k + 8..] == Zeros(FLIT - (8 * k + 8))
  {
    var slot' := Put(slot, 8 * k, f[8 * k..8 * k + 8]);
    assert f[..8 * k + 8] == f[..8 * k] + f[8 * k..8 * k + 8];
    forall i | 8 * k + 8 <= i < FLIT ensures slot'[i] == 0 {
      assert slot'[i] == slot[i] == slot[8 * k..][i - 8 * k];
    }
  }

  /** One store by the context itself: a WR is executed exactly when its last word arrives. */
  lemma StoreFaithful(d: Driver, door: Door)
    requires DoorOk(door) && d.at < 16 && d.done < |d.posts| && HalfWay(d, door)
    ensures var r := Store(door, 8 * (d.at % 8), Word(d.posts[d.done], d.at));
      && HalfWay(Advance(d), r.0)
      && r.1 == if d.at == 15 then Some(Seen(d.posts[d.done])) else None
  {
    hide HalfWay, Store, Word, Seen;
    if d.at < 8 {
      MetaStore(d, door);
    } else {
      ExtStore(d, door);
    }
  }

  lemma MetaStore(d: Driver, door: Door)
    requires DoorOk(door) && d.at < 8 && d.done < |d.posts| && HalfWay(d, door)
    ensures var r := Store(door, 8 * (d.at % 8), Word(d.posts[d.done], d.at)); HalfWay(Advance(d), r.0) && r.1 == None
  {
    hide Meta, Ext, Decode, Store;
    var p := d.posts[d.done];
    StoreWord(door, Meta(p), d.at);
    DecodesAsPosted(p);
  }

  lemma SecondHalf(at: nat)
    requires 8 <= at < 16
    ensures at % 8 == at - 8
  {
  }

  lemma ExtStore(d: Driver, door: Door)
    requires DoorOk(door) && 8 <= d.at < 16 && d.done < |d.posts| && HalfWay(d, door)
    ensures var r := Store(door, 8 * (d.at % 8), Word(d.posts[d.done], d.at));
      && HalfWay(Advance(d), r.0)
      && r.1 == if d.at == 15 then Some(Seen(d.posts[d.done])) else None
  {
    hide Meta, Ext, Decode, Store;
    var p, k := d.posts[d.done], d.at - 8;
    SecondHalf(d.at);
    assert Word(p, d.at) == Ext(p)[8 * k..8 * k + 8];
    hide Word;
    StoreWord(door, Ext(p), k);
    DecodesAsPosted(p);
  }

  /** The k-th word of a flit goes into the slot; with the last one the slot fires as that flit. */
  lemma StoreWord(door: Door, f: seq<Byte>, k: nat)
    requires DoorOk(door) && |f| == FLIT && k < 8
    requires door.slot[..8 * k] == f[..8 * k] && door.slot[8 * k..] == Zeros(FLIT - 8 * k)
    ensures var r := Store(door, 8 * k, f[8 * k..8 * k + 8]);
      if k < 7 then
        && r.1 == None && r.0.meta == door.meta && r.0.have == door.have
        && r.0.slot[..8 * k + 8] == f[..8 * k + 8] && r.0.slot[8 * k + 8..] == Zeros(FLIT - (8 * k + 8))
      else
        var meta := if Sop(f) then f else door.meta;
        var have := door.have || Sop(f);
        if Eop(f) && have then r == (Door(Zeros(FLIT), meta, false), Some(Decode(meta, f)))
        else r == (Door(Zeros(FLIT), meta, have), None)
  {
    hide Decode;
    Extends(door.slot, f, k);
    if k == 7 {
      var slot := Put(door.slot, 56, f[56..64]);
      assert slot == slot[..64] && f == f[..64];
    }
  }

  /** A step executes at most one WR, for the context that made it. */
  lemma StepLog(s: State, c: nat)
    requires StateOk(s) && c < MAX_CTX && s.drivers[c].done < |s.drivers[c].posts|
    ensures var s' := Step(s, c);
      s'.log == s.log || (|s'.log| == |s.log| + 1 && s'.log[..|s.log|] == s.log && s'.log[|s.log|].0 == c)
  {
    hide Store, Word;
  }

  lemma OtherUntouched(s: State, c: nat, c': nat)
    requires StateOk(s) && c < MAX_CTX && c' < MAX_CTX && c != c' && s.drivers[c].done < |s.drivers[c].posts|
    requires Faithful(s, c')
    ensures Faithful(Step(s, c), c')
  {
    hide HalfWay, Store;
    var s' := Step(s, c);
    if s'.log != s.log {
      assert s'.log[..|s'.log| - 1] == s.log;
    }
  }

  lemma OwnStep(s: State, c: nat)
    requires StateOk(s) && c < MAX_CTX && s.drivers[c].done < |s.drivers[c].posts|
    requires Faithful(s, c)
    ensures Faithful(Step(s, c), c)
  {
    hide HalfWay, Store, Seen, Word;
    var d, s' := s.drivers[c], Step(s, c);
    StoreFaithful(d, s.doors[c]);
    if d.at == 15 {
      assert s'.log[..|s'.log| - 1] == s.log;
      assert SeenAll(d.posts[..d.done + 1]) == SeenAll(d.posts[..d.done]) + [Seen(d.posts[d.done])];
    }
  }

  /**
   For every interleaving of stores from any contexts: the NIC has executed, for each context,
   exactly the WRs whose words are all stored, in order, each with every field as posted.
   */
  lemma {:induction false} ExecutesAsPosted(states: seq<State>, schedule: seq<nat>, k: nat, c: nat)
    requires IsRun(states, schedule) && Start(states[0]) && k < |states| && c < MAX_CTX
    ensures Faithful(states[k], c)
    ensures states[k].drivers[c].posts == states[0].drivers[c].posts
  {
    if k == 0 {
      assert states[0].doors[c].slot[0..] == Zeros(FLIT);
    } else {
      hide Faithful;
      ExecutesAsPosted(states, schedule, k - 1, c);
      if schedule[k - 1] == c {
        OwnStep(states[k - 1], c);
      } else {
        OtherUntouched(states[k - 1], schedule[k - 1], c);
      }
    }
  }
}
