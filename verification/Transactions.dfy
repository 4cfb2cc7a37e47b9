/**
  Nested database transactions (`CDBTransaction` in src/dbwrapper.h): layers of pending writes and
  deletes, to any depth, over a database of bytes.
 */
module Transactions {

  import opened Collections

  type Byte = b: nat | b < 256
  type Bytes = seq<Byte>
  type Key = Bytes

  /** A value is its C++ type and its serialization. */
  datatype Value = Value(tag: nat, bytes: Bytes)

  /** How the database reads bytes back as a value of a type; bytes of another type may fail to parse. */
  datatype Codec = Codec(parse: (nat, Bytes) -> Option<Value>)

  /** A database, or a transaction whose parent and commit target is the store below it. */
  datatype Store =
    | Base(db: map<Key, Bytes>)
    | Layer(writes: map<Key, Value>, deletes: set<Key>, memory: int, parent: Store)

  /** Reading as a type other than the one last written throws. */
  datatype Answer = Found(value: Value) | Missing | WrongType

  // ---------- the operations ----------

  function Read(codec: Codec, s: Store, k: Key, tag: nat): Answer {
    match s
    case Base(db) =>
      if k in db then
        var v := codec.parse(tag, db[k]);
        if v.Some? then Found(v.value) else Missing
      else Missing
    case Layer(writes, deletes, _, parent) =>
      if k in deletes then Missing
      else if k in writes then if writes[k].tag == tag then Found(writes[k]) else WrongType
      else Read(codec, parent, k, tag)
  }

  predicate Exists(s: Store, k: Key) {
    match s
    case Base(db) => k in db
    case Layer(writes, deletes, _, parent) =>
      if k in deletes then false else if k in writes then true else Exists(parent, k)
  }

  function Write(s: Store, k: Key, v: Value): Store {
    match s
    case Base(db) => Base(db[k := v.bytes])
    case Layer(writes, deletes, memory, parent) =>
      var m1 := if k in deletes then memory - |k| else memory;
      var m2 := if k in writes then m1 - (|k| + |writes[k].bytes|) else m1;
      Layer(writes[k := v], deletes - {k}, m2 + (|k| + |v.bytes|), parent)
  }

  function Erase(s: Store, k: Key): Store {
    match s
    case Base(db) => Base(db - {k})
    case Layer(writes, deletes, memory, parent) =>
      var m1 := if k in writes then memory - (|k| + |writes[k].bytes|) else memory;
      var m2 := if k in deletes then m1 else m1 + |k|;
      Layer(writes - {k}, deletes + {k}, m2, parent)
  }

  function Clear(s: Store): Store
    requires s.Layer?
  {
    Layer(map[], {}, 0, s.parent)
  }

  // ---------- what a store stands for ----------

  datatype Entry = Typed(value: Value) | Raw(bytes: Bytes)

  /** The whole content of a store as one map. */
  function Flat(s: Store): map<Key, Entry> {
    match s
    case Base(db) => map k | k in db :: Raw(db[k])
    case Layer(writes, deletes, _, parent) => Overlay(Flat(parent), writes, deletes)
  }

  function Overlay(below: map<Key, Entry>, writes: map<Key, Value>, deletes: set<Key>): map<Key, Entry> {
    map k | k in below.Keys + writes.Keys && (k in writes || k !in deletes) ::
      if k in writes then Typed(writes[k]) else below[k]
  }

  function Reply(codec: Codec, m: map<Key, Entry>, k: Key, tag: nat): Answer {
    if k !in m then Missing
    else match m[k]
      case Typed(v) => if v.tag == tag then Found(v) else WrongType
      case Raw(bytes) => var v := codec.parse(tag, bytes); if v.Some? then Found(v.value) else Missing
  }

  function WriteCosts(writes: map<Key, Value>): map<Key, nat> {
    map k | k in writes :: |k| + |writes[k].bytes|
  }

  function DeleteCosts(deletes: set<Key>): map<Key, nat> {
    map k | k in deletes :: |k|
  }

  /** No key is both written and deleted, and `memoryUsage` is the size of all keys and values held. */
  ghost predicate Sound(s: Store) {
    match s
    case Base(_) => true
    case Layer(writes, deletes, memory, parent) =>
      && writes.Keys !! deletes
      && memory == Total(WriteCosts(writes)) + Total(DeleteCosts(deletes))
      && Sound(parent)
  }

  /** Reads see the parent overlaid with the writes, minus the deletes, at any depth. */
  lemma {:induction false} ReadsFlat(codec: Codec, s: Store, k: Key, tag: nat)
    requires Sound(s)
    ensures Read(codec, s, k, tag) == Reply(codec, Flat(s), k, tag)
    ensures Exists(s, k) <==> k in Flat(s)
  {
    if s.Layer? { ReadsFlat(codec, s.parent, k, tag); }
  }

  lemma {:induction false} ExistsFlat(s: Store, k: Key)
    requires Sound(s)
    ensures Exists(s, k) <==> k in Flat(s)
  {
    if s.Layer? { ExistsFlat(s.parent, k); }
  }

  lemma OverlayWrite(below: map<Key, Entry>, writes: map<Key, Value>, deletes: set<Key>, k: Key, v: Value)
    ensures Overlay(below, writes[k := v], deletes - {k}) == Overlay(below, writes, deletes)[k := Typed(v)]
  {
  }

  lemma OverlayErase(below: map<Key, Entry>, writes: map<Key, Value>, deletes: set<Key>, k: Key)
    ensures Overlay(below, writes - {k}, deletes + {k}) == Overlay(below, writes, deletes) - {k}
  {
  }

  lemma WriteFlat(s: Store, k: Key, v: Value)
    ensures Flat(Write(s, k, v)) == Flat(s)[k := if s.Base? then Raw(v.bytes) else Typed(v)]
  {
    hide Overlay;
    if s.Layer? { OverlayWrite(Flat(s.parent), s.writes, s.deletes, k, v); }
  }

  lemma WriteSound(s: Store, k: Key, v: Value)
    requires Sound(s)
    ensures Sound(Write(s, k, v))
  {
    hide WriteCosts, DeleteCosts, Total;
    if s.Layer? { WriteCosted(s.writes, s.deletes, k, v); }
  }

  lemma WriteCosted(writes: map<Key, Value>, deletes: set<Key>, k: Key, v: Value)
    ensures Total(WriteCosts(writes[k := v])) ==
            Total(WriteCosts(writes)) - (if k in writes then |k| + |writes[k].bytes| else 0) + (|k| + |v.bytes|)
    ensures Total(DeleteCosts(deletes - {k})) == Total(DeleteCosts(deletes)) - (if k in deletes then |k| else 0)
  {
    var w, d := WriteCosts(writes), DeleteCosts(deletes);
    assert WriteCosts(writes[k := v]) == w[k := |k| + |v.bytes|];
    assert DeleteCosts(deletes - {k}) == d - {k};
    if k in writes { TotalUpdate(w, k, |k| + |v.bytes|); } else { TotalInsert(w, k, |k| + |v.bytes|); }
    if k in deletes { TotalRemove(d, k); } else { assert d - {k} == d; }
  }

  lemma EraseCosted(writes: map<Key, Value>, deletes: set<Key>, k: Key)
    ensures Total(WriteCosts(writes - {k})) == Total(WriteCosts(writes)) - (if k in writes then |k| + |writes[k].bytes| else 0)
    ensures Total(DeleteCosts(deletes + {k})) == Total(DeleteCosts(deletes)) + (if k in deletes then 0 else |k|)
  {
    var w, d := WriteCosts(writes), DeleteCosts(deletes);
    assert WriteCosts(writes - {k}) == w - {k};
    if k in writes { TotalRemove(w, k); } else { assert w - {k} == w; }
    if k in deletes {
      assert deletes + {k} == deletes;
    } else {
      assert DeleteCosts(deletes + {k}) == d[k := |k|];
      TotalInsert(d, k, |k|);
    }
  }

  lemma EraseFlat(s: Store, k: Key)
    ensures Flat(Erase(s, k)) == Flat(s) - {k}
  {
    hide Overlay;
    if s.Layer? { OverlayErase(Flat(s.parent), s.writes, s.deletes, k); }
  }

  lemma EraseSound(s: Store, k: Key)
    requires Sound(s)
    ensures Sound(Erase(s, k))
  {
    hide WriteCosts, DeleteCosts, Total;
    if s.Layer? { EraseCosted(s.writes, s.deletes, k); }
  }

  lemma ClearFlat(s: Store)
    requires s.Layer? && Sound(s)
    ensures Flat(Clear(s)) == Flat(s.parent) && Sound(Clear(s))
  {
    assert WriteCosts(map[]) == map[] && DeleteCosts({}) == map[];
  }

  // ---------- committing ----------

  /** A transaction with its memory usage accounted for. */
  ghost function Held(writes: map<Key, Value>, deletes: set<Key>, parent: Store): Store {
    Layer(writes, deletes, Total(WriteCosts(writes)) + Total(DeleteCosts(deletes)), parent)
  }

  function AbsorbDb(db: map<Key, Bytes>, writes: map<Key, Value>, deletes: set<Key>): map<Key, Bytes> {
    map k | k in db.Keys + writes.Keys && (k in writes || k !in deletes) :: if k in writes then writes[k].bytes else db[k]
  }

  function AbsorbWrites(w: map<Key, Value>, writes: map<Key, Value>, deletes: set<Key>): map<Key, Value> {
    (w - deletes) + writes
  }

  function AbsorbDeletes(d: set<Key>, writes: map<Key, Value>, deletes: set<Key>): set<Key> {
    d + deletes - writes.Keys
  }

  /** Erasing `deletes` and then writing `writes`, into whatever the store is. */
  ghost function Absorb(s: Store, writes: map<Key, Value>, deletes: set<Key>): Store {
    match s
    case Base(db) => Base(AbsorbDb(db, writes, deletes))
    case Layer(w, d, _, parent) => Held(AbsorbWrites(w, writes, deletes), AbsorbDeletes(d, writes, deletes), parent)
  }

  ghost function Commit(s: Store): Store
    requires s.Layer?
  {
    Layer(map[], {}, 0, Absorb(s.parent, s.writes, s.deletes))
  }

  lemma WriteHeld(w: map<Key, Value>, d: set<Key>, parent: Store, k: Key, v: Value)
    ensures Write(Held(w, d, parent), k, v) == Held(w[k := v], d - {k}, parent)
  {
    hide WriteCosts, DeleteCosts, Total;
    WriteCosted(w, d, k, v);
  }

  lemma EraseHeld(w: map<Key, Value>, d: set<Key>, parent: Store, k: Key)
    ensures Erase(Held(w, d, parent), k) == Held(w - {k}, d + {k}, parent)
  {
    hide WriteCosts, DeleteCosts, Total;
    EraseCosted(w, d, k);
  }

  lemma AbsorbMoreWrites(db: map<Key, Bytes>, w: map<Key, Value>, d: set<Key>, writes: map<Key, Value>, deletes: set<Key>,
                         k: Key, v: Value)
    requires k !in writes
    ensures AbsorbDb(db, writes, deletes)[k := v.bytes] == AbsorbDb(db, writes[k := v], deletes)
    ensures AbsorbWrites(w, writes, deletes)[k := v] == AbsorbWrites(w, writes[k := v], deletes)
    ensures AbsorbDeletes(d, writes, deletes) - {k} == AbsorbDeletes(d, writes[k := v], deletes)
  {
  }

  lemma AbsorbMoreDeletes(db: map<Key, Bytes>, w: map<Key, Value>, d: set<Key>, deletes: set<Key>, k: Key)
    ensures AbsorbDb(db, map[], deletes) - {k} == AbsorbDb(db, map[], deletes + {k})
    ensures AbsorbWrites(w, map[], deletes) - {k} == AbsorbWrites(w, map[], deletes + {k})
    ensures AbsorbDeletes(d, map[], deletes) + {k} == AbsorbDeletes(d, map[], deletes + {k})
  {
  }

  /** One more write after `writes`. */
  lemma AbsorbWrite(s: Store, writes: map<Key, Value>, deletes: set<Key>, k: Key, v: Value)
    requires k !in writes
    ensures Write(Absorb(s, writes, deletes), k, v) == Absorb(s, writes[k := v], deletes)
  {
    hide AbsorbDb, AbsorbWrites, AbsorbDeletes;
    match s
    case Base(db) => AbsorbMoreWrites(db, map[], {}, writes, deletes, k, v);
    case Layer(w, d, _, parent) =>
      hide Held;
      AbsorbMoreWrites(map[], w, d, writes, deletes, k, v);
      WriteHeld(AbsorbWrites(w, writes, deletes), AbsorbDeletes(d, writes, deletes), parent, k, v);
  }

  /** One more erasure, with nothing written yet. */
  lemma AbsorbErase(s: Store, deletes: set<Key>, k: Key)
    ensures Erase(Absorb(s, map[], deletes), k) == Absorb(s, map[], deletes + {k})
  {
    hide AbsorbDb, AbsorbWrites, AbsorbDeletes;
    match s
    case Base(db) => AbsorbMoreDeletes(db, map[], {}, deletes, k);
    case Layer(w, d, _, parent) =>
      hide Held;
      AbsorbMoreDeletes(map[], w, d, deletes, k);
      EraseHeld(AbsorbWrites(w, map[], deletes), AbsorbDeletes(d, map[], deletes), parent, k);
  }

  lemma AbsorbNothing(s: Store)
    requires Sound(s)
    ensures Absorb(s, map[], {}) == s
  {
    match s
    case Base(db) => assert AbsorbDb(db, map[], {}) == db;
    case Layer(w, d, _, _) => assert AbsorbWrites(w, map[], {}) == w && AbsorbDeletes(d, map[], {}) == d;
  }

  /** What the database keeps of a content: its bytes. */
  function Stored(m: map<Key, Entry>): map<Key, Entry> {
    map k | k in m :: if m[k].Typed? then Raw(m[k].value.bytes) else m[k]
  }

  lemma OverlayAbsorb(below: map<Key, Entry>, w: map<Key, Value>, d: set<Key>, writes: map<Key, Value>, deletes: set<Key>)
    ensures Overlay(below, AbsorbWrites(w, writes, deletes), AbsorbDeletes(d, writes, deletes)) ==
            Overlay(Overlay(below, w, d), writes, deletes)
  {
    var a := Overlay(below, AbsorbWrites(w, writes, deletes), AbsorbDeletes(d, writes, deletes));
    var b := Overlay(Overlay(below, w, d), writes, deletes);
    forall k ensures Lookup(a, k) == Lookup(b, k) {}
    SameLookups(a, b);
  }

  lemma OverlayNothing(m: map<Key, Entry>)
    ensures Overlay(m, map[], {}) == m
  {
  }

  /** Committing into a transaction makes it answer exactly as its child did, and changes no answer of the child. */
  lemma CommitFlat(s: Store)
    requires s.Layer? && s.parent.Layer?
    ensures Flat(Commit(s).parent) == Flat(s) && Flat(Commit(s)) == Flat(s)
  {
    var p := s.parent;
    OverlayAbsorb(Flat(p.parent), p.writes, p.deletes, s.writes, s.deletes);
    OverlayNothing(Flat(s));
    hide Overlay, AbsorbWrites, AbsorbDeletes;
  }

  /** Committing into the database leaves the bytes of what the child held. */
  lemma CommitStores(s: Store)
    requires s.Layer? && s.parent.Base?
    ensures Flat(Commit(s).parent) == Stored(Flat(s)) && Flat(Commit(s)) == Stored(Flat(s))
  {
    var a, b := Flat(Base(AbsorbDb(s.parent.db, s.writes, s.deletes))), Stored(Flat(s));
    var below := Flat(s.parent);
    assert Flat(s) == Overlay(below, s.writes, s.deletes);
    assert below.Keys == s.parent.db.Keys && forall k :: k in below ==> below[k] == Raw(s.parent.db[k]);
    forall k ensures Lookup(a, k) == Lookup(b, k) {}
    SameLookups(a, b);
    OverlayNothing(a);
  }

  /** What was written as a value of some type is read back as that value. */
  ghost predicate ReadsBack(codec: Codec, m: map<Key, Entry>) {
    forall k :: k in m && m[k].Typed? ==> codec.parse(m[k].value.tag, m[k].value.bytes) == Some(m[k].value)
  }

  /** So reads through the database are the same, except that a read that threw now tries to parse. */
  lemma StoredReply(codec: Codec, m: map<Key, Entry>, k: Key, tag: nat)
    requires ReadsBack(codec, m)
    ensures Reply(codec, Stored(m), k, tag) == Reply(codec, m, k, tag) <==> Reply(codec, m, k, tag) != WrongType
  {
  }

  lemma AbsorbSound(s: Store, writes: map<Key, Value>, deletes: set<Key>)
    requires Sound(s) && writes.Keys !! deletes
    ensures Sound(Absorb(s, writes, deletes))
  {
    hide WriteCosts, DeleteCosts, Total;
  }

  lemma CommitSound(s: Store)
    requires s.Layer? && Sound(s)
    ensures Sound(Commit(s))
  {
    AbsorbSound(s.parent, s.writes, s.deletes);
    assert WriteCosts(map[]) == map[] && DeleteCosts({}) == map[];
    hide Absorb;
  }

  /**
    Every answer after a commit, at whatever depth: the child and its parent answer as the child did
    before. The one exception is a read that threw for its type, once the database has the bytes.
   */
  lemma CommitAnswers(codec: Codec, s: Store, k: Key, tag: nat)
    requires s.Layer? && Sound(s) && ReadsBack(codec, Flat(s))
    ensures var t := Commit(s);
            && (Exists(t, k) <==> Exists(s, k)) && (Exists(t.parent, k) <==> Exists(s, k))
            && Read(codec, t, k, tag) == Read(codec, t.parent, k, tag)
            && (Read(codec, t, k, tag) == Read(codec, s, k, tag) <==> s.parent.Layer? || Read(codec, s, k, tag) != WrongType)
  {
    CommitSound(s);
    ReadsFlat(codec, s, k, tag);
    ReadsFlat(codec, Commit(s), k, tag);
    ReadsFlat(codec, Commit(s).parent, k, tag);
    hide Flat, Commit, Sound, Read, Exists;
    if s.parent.Layer? {
      CommitFlat(s);
    } else {
      CommitStores(s);
      StoredReply(codec, Flat(s), k, tag);
    }
  }

  /** What such a read becomes: the value that the bytes parse to as that type, or nothing if they do not. */
  lemma WrongTypeAfterCommit(codec: Codec, db: map<Key, Bytes>, k: Key, v: Value, tag: nat)
    requires v.tag != tag
    ensures var s := Write(Layer(map[], {}, 0, Base(db)), k, v);
            && Read(codec, s, k, tag) == WrongType
            && Read(codec, Commit(s), k, tag) ==
               (var w := codec.parse(tag, v.bytes); if w.Some? then Found(w.value) else Missing)
  {
    var s := Write(Layer(map[], {}, 0, Base(db)), k, v);
    assert s.writes == map[k := v] && s.deletes == {};
    assert Commit(s).parent == Base(AbsorbDb(db, s.writes, s.deletes));
    assert AbsorbDb(db, s.writes, s.deletes)[k] == v.bytes;
  }

  /** Both happen: with a type that takes any bytes the read is answered, with one that takes none it is not. */
  lemma WrongTypeBothWays(db: map<Key, Bytes>, k: Key, bytes: Bytes)
    ensures var s := Write(Layer(map[], {}, 0, Base(db)), k, Value(1, bytes));
            && Read(Lenient(), s, k, 2) == Read(Strict(), s, k, 2) == WrongType
            && Read(Lenient(), Commit(s), k, 2) == Found(Value(2, bytes))
            && Read(Strict(), Commit(s), k, 2) == Missing
  {
    WrongTypeAfterCommit(Lenient(), db, k, Value(1, bytes), 2);
    WrongTypeAfterCommit(Strict(), db, k, Value(1, bytes), 2);
  }

  function Lenient(): Codec { Codec((t: nat, b: Bytes) => Some(Value(t, b))) }

  function Strict(): Codec { Codec((t: nat, b: Bytes) => if t == 1 then Some(Value(t, b)) else None) }

  // ---------- the root transaction, which commits into a batch ----------

  function Elements(ks: seq<Key>): set<Key> {
    set k | k in ks
  }

  datatype BatchOp = Put(k: Key, v: Value) | Delete(k: Key)

  /** What writing a batch does to the database (`CDBWrapper::WriteBatch`). */
  function Apply(s: Store, ops: seq<BatchOp>): Store {
    if ops == [] then s
    else
      var t := Apply(s, ops[..|ops| - 1]);
      match ops[|ops| - 1]
      case Put(k, v) => Write(t, k, v)
      case Delete(k) => Erase(t, k)
  }

  /** The batch that `Commit` fills: the deletes, then the writes, each in the order of its container. */
  function Deletions(dels: seq<Key>): seq<BatchOp> { seq(|dels|, i requires 0 <= i < |dels| => Delete(dels[i])) }

  function Batch(dels: seq<Key>, writes: map<Key, Value>, puts: seq<Key>): seq<BatchOp>
    requires forall k :: k in puts ==> k in writes
  {
    Deletions(dels) + seq(|puts|, i requires 0 <= i < |puts| => assert puts[i] in puts; Put(puts[i], writes[puts[i]]))
  }

  lemma {:induction false} ApplyDeletions(s: Store, dels: seq<Key>)
    requires Sound(s)
    ensures Apply(s, Deletions(dels)) == Absorb(s, map[], Elements(dels))
  {
    hide Absorb, Write, Erase, Sound;
    if dels == [] {
      AbsorbNothing(s);
      assert Elements(dels) == {};
    } else {
      var n := |dels| - 1;
      assert dels == dels[..n] + [dels[n]] && Deletions(dels)[..n] == Deletions(dels[..n]);
      ApplyDeletions(s, dels[..n]);
      AbsorbErase(s, Elements(dels[..n]), dels[n]);
      assert Elements(dels) == Elements(dels[..n]) + {dels[n]};
    }
  }

  /** The writes of the given keys only. */
  function Only(writes: map<Key, Value>, puts: seq<Key>): map<Key, Value> { map k | k in writes && k in puts :: writes[k] }

  lemma {:induction false} ApplyBatch(s: Store, dels: seq<Key>, writes: map<Key, Value>, puts: seq<Key>)
    requires Sound(s) && (forall k :: k in puts ==> k in writes) && Distinct(puts)
    ensures Apply(s, Batch(dels, writes, puts)) == Absorb(s, Only(writes, puts), Elements(dels))
    decreases |puts|
  {
    hide Absorb, Write, Erase, Sound, Elements;
    if puts == [] {
      ApplyDeletions(s, dels);
      assert Batch(dels, writes, puts) == Deletions(dels) && Only(writes, puts) == map[];
    } else {
      var n := |puts| - 1;
      var k, ops := puts[n], Batch(dels, writes, puts);
      assert puts == puts[..n] + [k];
      assert ops[..|ops| - 1] == Batch(dels, writes, puts[..n]) && ops[|ops| - 1] == Put(k, writes[k]);
      ApplyBatch(s, dels, writes, puts[..n]);
      AbsorbWrite(s, Only(writes, puts[..n]), Elements(dels), k, writes[k]);
      assert Only(writes, puts) == Only(writes, puts[..n])[k := writes[k]];
    }
  }

  predicate Distinct(ks: seq<Key>) { forall i, j :: 0 <= i < j < |ks| ==> ks[i] != ks[j] }

  /**
    The root transaction commits into a batch, and the batch is written afterwards: the database ends as
    if it had been the commit target. In between the root transaction shows the database as it was.
   */
  lemma RootCommit(s: Store, dels: seq<Key>, puts: seq<Key>)
    requires s.Layer? && s.parent.Base? && Sound(s) && Distinct(puts)
    requires (forall k :: k in dels <==> k in s.deletes) && (forall k :: k in puts <==> k in s.writes)
    ensures Apply(s.parent, Batch(dels, s.writes, puts)) == Commit(s).parent
    ensures Flat(Clear(s)) == Flat(s.parent)
  {
    ApplyBatch(s.parent, dels, s.writes, puts);
    assert Only(s.writes, puts) == s.writes && Elements(dels) == s.deletes;
    ClearFlat(s);
  }

  // ---------- runs ----------

  /** What is done to the innermost transaction; beginning another one makes that the innermost. */
  datatype Op = DoWrite(k: Key, v: Value) | DoErase(k: Key) | DoCommit | DoRollback | DoBegin

  ghost function Step(s: Store, op: Op): Store
    requires s.Layer?
  {
    match op
    case DoWrite(k, v) => Write(s, k, v)
    case DoErase(k) => Erase(s, k)
    case DoCommit => Commit(s)
    case DoRollback => Clear(s)
    case DoBegin => Layer(map[], {}, 0, s)
  }

  /** The contents seen from each transaction outwards, innermost first. */
  function Contents(s: Store): seq<map<Key, Entry>> {
    if s.Base? then [Flat(s)] else [Flat(s)] + Contents(s.parent)
  }

  /** The same steps where every transaction simply is a copy of the whole content. */
  function PlainStep(c: seq<map<Key, Entry>>, op: Op): seq<map<Key, Entry>>
    requires |c| >= 2
  {
    match op
    case DoWrite(k, v) => [c[0][k := Typed(v)]] + c[1..]
    case DoErase(k) => [c[0] - {k}] + c[1..]
    case DoCommit => var m := if |c| == 2 then Stored(c[0]) else c[0]; [m, m] + c[2..]
    case DoRollback => [c[1]] + c[1..]
    case DoBegin => [c[0]] + c
  }

  lemma StepPlain(s: Store, op: Op)
    requires s.Layer? && Sound(s)
    ensures Step(s, op).Layer? && Sound(Step(s, op))
    ensures |Contents(s)| >= 2 && Contents(Step(s, op)) == PlainStep(Contents(s), op)
  {
    hide Flat, Sound, Commit;
    assert |Contents(s)| >= 2;
    match op
    case DoWrite(k, v) => WriteSound(s, k, v); WriteFlat(s, k, v);
    case DoErase(k) => EraseSound(s, k); EraseFlat(s, k);
    case DoCommit => CommitSound(s); CommitContents(s);
    case DoRollback => ClearFlat(s);
    case DoBegin => BeginFlat(s);
  }

  lemma ContentsIs(s: Store)
    ensures s.Layer? ==> Contents(s) == [Flat(s)] + Contents(s.parent)
    ensures s.Base? ==> Contents(s) == [Flat(s)]
    ensures |Contents(s)| >= 1
  {
    hide Flat;
  }

  lemma CommitPlain(a: map<Key, Entry>, b: map<Key, Entry>, rest: seq<map<Key, Entry>>)
    ensures var m := if rest == [] then Stored(a) else a;
            PlainStep([a] + ([b] + rest), DoCommit) == [m] + ([m] + rest)
  {
    hide Stored;
    var c := [a] + ([b] + rest);
    assert c[0] == a && c[2..] == rest && |c| == 2 + |rest|;
  }

  lemma CommitContents(s: Store)
    requires s.Layer?
    ensures |Contents(s)| >= 2 && Commit(s).Layer? && Contents(Commit(s)) == PlainStep(Contents(s), DoCommit)
  {
    hide Contents, Flat, Absorb, Stored, PlainStep;
    AbsorbKeepsParent(s.parent, s.writes, s.deletes);
    var t, p := Commit(s), s.parent;
    ContentsIs(s);
    ContentsIs(t);
    ContentsIs(p);
    ContentsIs(t.parent);
    if p.Layer? {
      CommitFlat(s);
      ContentsIs(p.parent);
      CommitPlain(Flat(s), Flat(p), Contents(p.parent));
    } else {
      CommitStores(s);
      CommitPlain(Flat(s), Flat(p), []);
      assert [Flat(p)] + [] == [Flat(p)] && [Flat(t)] + [] == [Flat(t)];
    }
  }

  lemma AbsorbKeepsParent(s: Store, writes: map<Key, Value>, deletes: set<Key>)
    ensures Absorb(s, writes, deletes).Layer? == s.Layer?
    ensures s.Layer? ==> Absorb(s, writes, deletes).parent == s.parent
  {
  }

  lemma BeginFlat(s: Store)
    requires Sound(s)
    ensures Flat(Layer(map[], {}, 0, s)) == Flat(s) && Sound(Layer(map[], {}, 0, s))
  {
    OverlayNothing(Flat(s));
    assert WriteCosts(map[]) == map[] && DeleteCosts({}) == map[];
  }

  ghost function Run(s: Store, ops: seq<Op>): Store
    requires s.Layer? && Sound(s)
    decreases |ops|
  {
    if ops == [] then s
    else
      StepPlain(s, ops[0]);
      Run(Step(s, ops[0]), ops[1..])
  }

  function PlainRun(c: seq<map<Key, Entry>>, ops: seq<Op>): seq<map<Key, Entry>>
    requires |c| >= 2
    decreases |ops|
  {
    if ops == [] then c else PlainRun(PlainStep(c, ops[0]), ops[1..])
  }

  /**
    Every run of writes, erasures, commits, rollbacks and nested transactions: what each layer answers
    is what plain copies of the content would hold, and the accounts stay exact.
   */
  lemma {:induction false} RunPlain(s: Store, ops: seq<Op>)
    requires s.Layer? && Sound(s)
    ensures Run(s, ops).Layer? && Sound(Run(s, ops))
    ensures |Contents(s)| >= 2 && Contents(Run(s, ops)) == PlainRun(Contents(s), ops)
    decreases |ops|
  {
    hide Flat, Sound, Step, PlainStep;
    StepPlain(s, DoRollback);
    if ops != [] {
      StepPlain(s, ops[0]);
      RunPlain(Step(s, ops[0]), ops[1..]);
    }
  }
}
