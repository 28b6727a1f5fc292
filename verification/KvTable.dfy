/**
 The open-addressed table of the key-value server: 256 slots probed in a full circle, deletion by
 clearing a flag. It refines a finite map of at most 256 keys, whatever the hash function.
 */
module KvTable {
  import opened Words

  const NSLOT := 256
  const KMAX := 32
  const VMAX := 256

  type Key = k: seq<Byte> | |k| <= KMAX
  type Value = v: seq<Byte> | |v| <= VMAX

  /** Fixed buffers; only the first klen and vlen bytes mean anything. */
  datatype Slot = Slot(k: seq<Byte>, klen: nat, v: seq<Byte>, vlen: nat, used: bool)

  predicate SlotOk(s: Slot) {
    |s.k| == KMAX && s.klen <= KMAX && |s.v| == VMAX && s.vlen <= VMAX
  }

  function KeyOf(s: Slot): Key
    requires SlotOk(s)
  {
    s.k[..s.klen]
  }

  function ValueOf(s: Slot): Value
    requires SlotOk(s)
  {
    s.v[..s.vlen]
  }

  predicate SlotsOk(t: seq<Slot>) {
    forall i :: 0 <= i < |t| ==> SlotOk(t[i])
  }

  predicate Holds(s: Slot, key: Key)
    requires SlotOk(s)
  {
    s.used && KeyOf(s) == key
  }

  /** The slot of the i-th probe. */
  function At(h: nat, i: nat): (at: nat)
    ensures at < NSLOT
  {
    (h + i) % NSLOT
  }

  /** Where kv_find stops: on the key, or on a free slot if one is wanted. */
  predicate Stops(s: Slot, key: Key, wantFree: bool)
    requires SlotOk(s)
  {
    Holds(s, key) || (wantFree && !s.used)
  }

  /** kv_find from the i-th probe on; NSLOT stands for NULL. */
  function Probe(t: seq<Slot>, h: nat, key: Key, wantFree: bool, i: nat): (r: nat)
    requires |t| == NSLOT && SlotsOk(t) && i <= NSLOT
    ensures r <= NSLOT
    decreases NSLOT - i
  {
    if i == NSLOT then NSLOT
    else
      var at := At(h, i);
      if Stops(t[at], key, wantFree) then at
      else Probe(t, h, key, wantFree, i + 1)
  }

  function Filled(s: Slot, key: Key, value: Value): (r: Slot)
    requires SlotOk(s)
    ensures SlotOk(r) && r.used && KeyOf(r) == key && ValueOf(r) == value
  {
    Slot(Put(s.k, 0, key), |key|, Put(s.v, 0, value), |value|, true)
  }

  datatype Result = Done | Found(value: Value) | Failed
  datatype Op = PutOp(key: Key, value: Value) | GetOp(key: Key) | DelOp(key: Key)

  function KvPut(t: seq<Slot>, hash: Key -> nat, key: Key, value: Value): (r: (seq<Slot>, Result))
    requires |t| == NSLOT && SlotsOk(t)
    ensures |r.0| == NSLOT && SlotsOk(r.0)
  {
    var e := Probe(t, hash(key), key, false, 0);
    var at := if e < NSLOT then e else Probe(t, hash(key), key, true, 0);
    if at < NSLOT then (t[at := Filled(t[at], key, value)], Done) else (t, Failed)
  }

  function KvGet(t: seq<Slot>, hash: Key -> nat, key: Key): Result
    requires |t| == NSLOT && SlotsOk(t)
  {
    var e := Probe(t, hash(key), key, false, 0);
    if e < NSLOT then Found(ValueOf(t[e])) else Failed
  }

  function KvDel(t: seq<Slot>, hash: Key -> nat, key: Key): (r: (seq<Slot>, Result))
    requires |t| == NSLOT && SlotsOk(t)
    ensures |r.0| == NSLOT && SlotsOk(r.0)
  {
    var e := Probe(t, hash(key), key, false, 0);
    if e < NSLOT then (t[e := t[e].(used := false)], Done) else (t, Failed)
  }

  // ---- the map a table stands for ----

  /** At most one used slot holds a key. */
  ghost predicate Unique(t: seq<Slot>)
    requires SlotsOk(t)
  {
    forall i, j :: 0 <= i < j < |t| && t[i].used && t[j].used ==> KeyOf(t[i]) != KeyOf(t[j])
  }

  function Contents(t: seq<Slot>): map<Key, Value>
    requires SlotsOk(t)
  {
    if t == [] then map[]
    else
      var m, s := Contents(t[..|t| - 1]), t[|t| - 1];
      if s.used then m[KeyOf(s) := ValueOf(s)] else m
  }

  lemma {:induction false} InContents(t: seq<Slot>, key: Key)
    requires SlotsOk(t)
    ensures key in Contents(t) <==> exists i :: 0 <= i < |t| && Holds(t[i], key)
    decreases |t|
  {
    if t == [] {
    } else {
      var u, s := t[..|t| - 1], t[|t| - 1];
      InContents(u, key);
      if key in Contents(u) {
        var i :| 0 <= i < |u| && Holds(u[i], key);
        assert Holds(t[i], key);
      } else if s.used && KeyOf(s) == key {
        assert Holds(t[|t| - 1], key);
      } else {
        forall i | 0 <= i < |t| ensures !Holds(t[i], key) {
          assert i < |u| ==> t[i] == u[i];
        }
      }
    }
  }

  lemma {:induction false} ContentsAt(t: seq<Slot>, i: nat)
    requires SlotsOk(t) && Unique(t) && i < |t| && t[i].used
    ensures KeyOf(t[i]) in Contents(t) && Contents(t)[KeyOf(t[i])] == ValueOf(t[i])
    decreases |t|
  {
    if i < |t| - 1 {
      ContentsAt(t[..|t| - 1], i);
    }
  }

  function Used(t: seq<Slot>): nat {
    if t == [] then 0 else Used(t[..|t| - 1]) + if t[|t| - 1].used then 1 else 0
  }

  /** As many keys are live as slots are used. */
  lemma {:induction false} ContentsSize(t: seq<Slot>)
    requires SlotsOk(t) && Unique(t)
    ensures |Contents(t)| == Used(t)
    decreases |t|
  {
    if t == [] {
    } else {
      var u, s := t[..|t| - 1], t[|t| - 1];
      ContentsSize(u);
      InContents(u, KeyOf(s));
    }
  }

  lemma {:induction false} UsedAll(t: seq<Slot>)
    ensures Used(t) <= |t|
    ensures Used(t) == |t| <==> forall i :: 0 <= i < |t| ==> t[i].used
    decreases |t|
  {
    if t == [] {
    } else {
      var u := t[..|t| - 1];
      UsedAll(u);
      assert forall i :: 0 <= i < |u| ==> u[i] == t[i];
      if forall i :: 0 <= i < |t| ==> t[i].used {
        assert t[|t| - 1].used;
      }
    }
  }

  // ---- probing ----

  /** A probe that ends on a slot may stop there; one that ends on none has passed every slot k. */
  lemma {:induction false} ProbeStops(t: seq<Slot>, h: nat, key: Key, wantFree: bool, i: nat, k: nat)
    requires |t| == NSLOT && SlotsOk(t) && i <= k < NSLOT
    ensures var r := Probe(t, h, key, wantFree, i);
      if r < NSLOT then Stops(t[r], key, wantFree) else !Stops(t[At(h, k)], key, wantFree)
    decreases NSLOT - i
  {
    hide Stops, At;
    if i < k {
      ProbeStops(t, h, key, wantFree, i + 1, k);
    } else if i + 1 < NSLOT {
      ProbeStops(t, h, key, wantFree, i + 1, NSLOT - 1);
    }
  }

  /** A full circle visits every slot. */
  lemma Circle(h: nat, j: nat) returns (k: nat)
    requires j < NSLOT
    ensures k < NSLOT && At(h, k) == j
  {
    k := (j + NSLOT - h % NSLOT) % NSLOT;
  }

  lemma ProbeFinds(t: seq<Slot>, h: nat, key: Key, wantFree: bool)
    requires |t| == NSLOT && SlotsOk(t)
    ensures var r := Probe(t, h, key, wantFree, 0);
      if r < NSLOT then Stops(t[r], key, wantFree) else forall j :: 0 <= j < NSLOT ==> !Stops(t[j], key, wantFree)
  {
    hide Probe, Stops, At;
    ProbeStops(t, h, key, wantFree, 0, 0);
    if Probe(t, h, key, wantFree, 0) == NSLOT {
      forall j | 0 <= j < NSLOT ensures !Stops(t[j], key, wantFree) {
        var k := Circle(h, j);
        ProbeStops(t, h, key, wantFree, 0, k);
      }
    }
  }

  // ---- refinement ----

  lemma UniqueSet(t: seq<Slot>, at: nat, s: Slot)
    requires SlotsOk(t) && Unique(t) && at < |t| && SlotOk(s)
    requires s.used ==> forall j :: 0 <= j < |t| && j != at ==> !Holds(t[j], KeyOf(s))
    ensures Unique(t[at := s])
  {
  }

  /** Replacing one slot changes the map at the old and the new key of that slot only. */
  lemma ContentsElsewhere(t: seq<Slot>, at: nat, s: Slot, key: Key)
    requires SlotsOk(t) && Unique(t) && at < |t| && SlotOk(s) && Unique(t[at := s])
    requires !Holds(t[at], key) && !Holds(s, key)
    ensures key in Contents(t[at := s]) <==> key in Contents(t)
    ensures key in Contents(t) && key in Contents(t[at := s]) ==> Contents(t[at := s])[key] == Contents(t)[key]
  {
    hide Contents;
    var t' := t[at := s];
    InContents(t, key);
    InContents(t', key);
    if i :| 0 <= i < |t| && Holds(t[i], key) {
      assert Holds(t'[i], key);
      ContentsAt(t, i);
      ContentsAt(t', i);
    } else {
      assert forall i :: 0 <= i < |t| ==> !Holds(t'[i], key);
    }
  }

  lemma StoredContents(t: seq<Slot>, at: nat, key: Key, value: Value)
    requires SlotsOk(t) && Unique(t) && at < |t|
    requires forall j :: 0 <= j < |t| && j != at ==> !Holds(t[j], key)
    requires t[at].used ==> KeyOf(t[at]) == key
    ensures var t' := t[at := Filled(t[at], key, value)]; Unique(t') && Contents(t') == Contents(t)[key := value]
  {
    hide Contents;
    var s := Filled(t[at], key, value);
    var t' := t[at := s];
    UniqueSet(t, at, s);
    ContentsAt(t', at);
    forall k: Key | k != key
      ensures k in Contents(t') <==> k in Contents(t)
      ensures k in Contents(t) && k in Contents(t') ==> Contents(t')[k] == Contents(t)[k]
    {
      ContentsElsewhere(t, at, s, k);
    }
  }

  lemma DeletedContents(t: seq<Slot>, at: nat)
    requires SlotsOk(t) && Unique(t) && at < |t| && t[at].used
    ensures var t' := t[at := t[at].(used := false)]; Unique(t') && Contents(t') == Contents(t) - {KeyOf(t[at])}
  {
    hide Contents;
    var s, key := t[at].(used := false), KeyOf(t[at]);
    var t' := t[at := s];
    UniqueSet(t, at, s);
    InContents(t', key);
    assert forall i :: 0 <= i < |t| ==> !Holds(t'[i], key);
    forall k: Key | k != key
      ensures k in Contents(t') <==> k in Contents(t)
      ensures k in Contents(t) && k in Contents(t') ==> Contents(t')[k] == Contents(t)[k]
    {
      ContentsElsewhere(t, at, s, k);
    }
  }

  lemma ProbedContents(t: seq<Slot>, h: nat, key: Key)
    requires |t| == NSLOT && SlotsOk(t) && Unique(t)
    ensures var e := Probe(t, h, key, false, 0);
      && (key in Contents(t) <==> e < NSLOT)
      && (e < NSLOT ==> Holds(t[e], key) && Contents(t)[key] == ValueOf(t[e])
                        && forall j :: 0 <= j < |t| && j != e ==> !Holds(t[j], key))
  {
    hide Contents, Probe;
    var e := Probe(t, h, key, false, 0);
    ProbeFinds(t, h, key, false);
    InContents(t, key);
    if e < NSLOT {
      ContentsAt(t, e);
    } else {
      assert forall j :: 0 <= j < NSLOT ==> !Stops(t[j], key, false);
    }
  }

  /** A put stores the pair; it fails exactly when the key is absent and 256 keys are live. */
  lemma PutRefines(t: seq<Slot>, hash: Key -> nat, key: Key, value: Value)
    requires |t| == NSLOT && SlotsOk(t) && Unique(t)
    ensures var r, m := KvPut(t, hash, key, value), Contents(t);
      && Unique(r.0)
      && r.1 == (if key !in m && |m| == NSLOT then Failed else Done)
      && Contents(r.0) == if r.1 == Done then m[key := value] else m
  {
    hide Contents, Probe, Used;
    var e := Probe(t, hash(key), key, false, 0);
    ProbedContents(t, hash(key), key);
    ContentsSize(t);
    UsedAll(t);
    if e < NSLOT {
      StoredContents(t, e, key, value);
    } else {
      ProbeFinds(t, hash(key), key, true);
      ProbeFinds(t, hash(key), key, false);
      assert forall j :: 0 <= j < NSLOT ==> !Stops(t[j], key, false);
      var f := Probe(t, hash(key), key, true, 0);
      if f < NSLOT {
        StoredContents(t, f, key, value);
      } else {
        assert forall j :: 0 <= j < NSLOT ==> !Stops(t[j], key, true);
      }
    }
  }

  lemma GetRefines(t: seq<Slot>, hash: Key -> nat, key: Key)
    requires |t| == NSLOT && SlotsOk(t) && Unique(t)
    ensures KvGet(t, hash, key) == if key in Contents(t) then Found(Contents(t)[key]) else Failed
  {
    hide Contents, Probe;
    ProbedContents(t, hash(key), key);
  }

  /** A delete removes its key and hides no other. */
  lemma DelRefines(t: seq<Slot>, hash: Key -> nat, key: Key)
    requires |t| == NSLOT && SlotsOk(t) && Unique(t)
    ensures var r, m := KvDel(t, hash, key), Contents(t);
      && Unique(r.0)
      && r.1 == (if key in m then Done else Failed)
      && Contents(r.0) == m - {key}
  {
    hide Contents, Probe;
    var e := Probe(t, hash(key), key, false, 0);
    ProbedContents(t, hash(key), key);
    if e < NSLOT {
      DeletedContents(t, e);
    } else {
      assert Contents(t) - {key} == Contents(t);
    }
  }

  // ---- whole runs ----

  function Apply(t: seq<Slot>, hash: Key -> nat, op: Op): (r: (seq<Slot>, Result))
    requires |t| == NSLOT && SlotsOk(t)
    ensures |r.0| == NSLOT && SlotsOk(r.0)
  {
    match op
    case PutOp(key, value) => KvPut(t, hash, key, value)
    case GetOp(key) => (t, KvGet(t, hash, key))
    case DelOp(key) => KvDel(t, hash, key)
  }

  /** The specification: a map that holds at most 256 keys. */
  function MapApply(m: map<Key, Value>, op: Op): (map<Key, Value>, Result) {
    match op
    case PutOp(key, value) => if key !in m && |m| == NSLOT then (m, Failed) else (m[key := value], Done)
    case GetOp(key) => (m, if key in m then Found(m[key]) else Failed)
    case DelOp(key) => (m - {key}, if key in m then Done else Failed)
  }

  /** The results of a run of operations on the table, and on the map. */
  function Results(t: seq<Slot>, hash: Key -> nat, ops: seq<Op>): seq<Result>
    requires |t| == NSLOT && SlotsOk(t)
    decreases |ops|
  {
    if ops == [] then []
    else var r := Apply(t, hash, ops[0]); [r.1] + Results(r.0, hash, ops[1..])
  }

  function MapResults(m: map<Key, Value>, ops: seq<Op>): seq<Result>
    decreases |ops|
  {
    if ops == [] then []
    else var r := MapApply(m, ops[0]); [r.1] + MapResults(r.0, ops[1..])
  }

  /** For any hash function and any sequence of operations, the table answers as the map does. */
  lemma {:induction false} TableIsMap(t: seq<Slot>, hash: Key -> nat, ops: seq<Op>)
    requires |t| == NSLOT && SlotsOk(t) && Unique(t)
    ensures Results(t, hash, ops) == MapResults(Contents(t), ops)
    decreases |ops|
  {
    hide Contents, KvPut, KvGet, KvDel;
    if ops == [] {
    } else {
      var r := Apply(t, hash, ops[0]);
      match ops[0]
      case PutOp(key, value) =>
        PutRefines(t, hash, key, value);
        TableIsMap(r.0, hash, ops[1..]);
      case GetOp(key) =>
        GetRefines(t, hash, key);
        TableIsMap(r.0, hash, ops[1..]);
      case DelOp(key) =>
        DelRefines(t, hash, key);
        TableIsMap(r.0, hash, ops[1..]);
    }
  }

  // ---- the table in place ----

  const FNV_BASIS: U32 := 2166136261
  const FNV_PRIME: U32 := 16777619

  /** One round of the FNV-1a hash on 32-bit words. */
  function HashByte(h: U32, b: Byte): U32 {
    Pow2Values();
    Bitwise((x, y) => x != y, 32, h, b) * FNV_PRIME % WORD32
  }

  function HashFrom(h: U32, k: seq<Byte>): U32
    decreases |k|
  {
    if k == [] then h else HashFrom(HashByte(h, k[0]), k[1..])
  }

  function Hash(k: Key): (h: nat)
    ensures h < NSLOT
  {
    HashFrom(FNV_BASIS, k) % NSLOT
  }

  method KHash(k: Key) returns (h: nat)
    ensures h == Hash(k)
  {
    hide HashByte;
    var x: U32 := FNV_BASIS;
    var i := 0;
    assert k[0..] == k;
    while i < |k|
      invariant i <= |k| && HashFrom(x, k[i..]) == HashFrom(FNV_BASIS, k)
    {
      assert k[i..][1..] == k[i + 1..];
      x := HashByte(x, k[i]);
      i := i + 1;
    }
    h := x % NSLOT;
  }

  class Server {
    const tab: array<Slot>

    ghost predicate Valid()
      reads this, tab
    {
      tab.Length == NSLOT && SlotsOk(tab[..])
    }

    constructor ()
      ensures Valid() && fresh(tab) && Unique(tab[..]) && forall i :: 0 <= i < NSLOT ==> !tab[i].used
    {
      tab := new Slot[NSLOT](_ => Slot(Zeros(KMAX), 0, Zeros(VMAX), 0, false));
    }

    /** The first slot in probe order that holds the key, or with wantFree is free; NSLOT for NULL. */
    method Find(k: Key, wantFree: bool) returns (at: nat)
      requires Valid()
      ensures at == Probe(tab[..], Hash(k), k, wantFree, 0)
    {
      hide Hash;
      var h := KHash(k);
      ghost var t := tab[..];
      var i := 0;
      while i < NSLOT
        invariant i <= NSLOT && Probe(t, h, k, wantFree, 0) == Probe(t, h, k, wantFree, i)
      {
        at := (h + i) % NSLOT;
        var e := tab[at];
        assert t[at] == e && SlotOk(e);
        if e.used && e.klen == |k| && e.k[..|k|] == k {
          return;
        }
        if wantFree && !e.used {
          return;
        }
        i := i + 1;
      }
      at := NSLOT;
    }

    method Put(k: Key, v: Value) returns (r: Result)
      requires Valid()
      modifies tab
      ensures Valid() && (tab[..], r) == KvPut(old(tab[..]), Hash, k, v)
    {
      hide Probe, Hash;
      var at := Find(k, false);
      if at == NSLOT {
        at := Find(k, true);
      }
      if at == NSLOT {
        return Failed;
      }
      assert SlotOk(tab[..][at]);
      tab[at] := Slot(Words.Put(tab[at].k, 0, k), |k|, Words.Put(tab[at].v, 0, v), |v|, true);
      r := Done;
    }

    method Get(k: Key) returns (r: Result)
      requires Valid()
      ensures r == KvGet(tab[..], Hash, k)
    {
      var at := Find(k, false);
      if at == NSLOT {
        return Failed;
      }
      assert SlotOk(tab[..][at]);
      r := Found(tab[at].v[..tab[at].vlen]);
    }

    method Delete(k: Key) returns (r: Result)
      requires Valid()
      modifies tab
      ensures Valid() && (tab[..], r) == KvDel(old(tab[..]), Hash, k)
    {
      var at := Find(k, false);
      if at == NSLOT {
        return Failed;
      }
      assert SlotOk(tab[..][at]);
      tab[at] := tab[at].(used := false);
      r := Done;
    }
  }
}
