/**
  Transactions as objects that point at their parent (src/dbwrapper.h). Every method is proved to
  do what the function of the same name in `Transactions` says.
 */
module TransactionObjects {

  import opened Collections
  import opened Transactions
  import T = Transactions

  class Database {
    var db: map<Key, Bytes>

    constructor ()
      ensures State() == Base(map[])
    {
      db := map[];
    }

    function State(): Store
      reads this
    {
      Base(db)
    }
  }

  datatype Parent = OnDb(db: Database) | OnTransaction(transaction: Transaction)

  class Transaction {
    const codec: Codec
    const parent: Parent

    /** The objects this transaction rests on, and how many transactions are among them. */
    ghost const below: set<object>
    ghost const depth: nat

    var writes: map<Key, Value>
    var deletes: set<Key>
    var memoryUsage: int

    constructor (codec: Codec, parent: Parent)
      requires parent.OnTransaction? ==> parent.transaction.Linked() && parent.transaction.codec == codec
      ensures Linked() && this.codec == codec && this.parent == parent
      ensures State() == Layer(map[], {}, 0, ParentState())
    {
      this.codec, this.parent := codec, parent;
      below := if parent.OnDb? then {parent.db} else parent.transaction.below + {parent.transaction};
      depth := if parent.OnDb? then 0 else parent.transaction.depth + 1;
      writes, deletes, memoryUsage := map[], {}, 0;
    }

    /** The chain of parents ends at a database and never runs in a circle. */
    ghost predicate Linked()
      decreases depth
    {
      && this !in below
      && match parent
         case OnDb(db) => below == {db as object} && depth == 0
         case OnTransaction(p) =>
           depth == p.depth + 1 && p.Linked() && p.codec == codec && below == p.below + {p as object}
    }

    ghost function ParentState(): Store
      requires Linked()
      reads below
      decreases depth, 0
    {
      match parent case OnDb(db) => db.State() case OnTransaction(p) => p.State()
    }

    ghost function State(): Store
      requires Linked()
      reads this, below
      decreases depth, 1
    {
      Layer(writes, deletes, memoryUsage, ParentState())
    }

    // ---------- reading ----------

    method Read(k: Key, tag: nat) returns (r: Answer)
      requires Linked()
      ensures r == T.Read(codec, State(), k, tag)
      decreases depth
    {
      if k in deletes { return Missing; }
      if k in writes { return if writes[k].tag == tag then Found(writes[k]) else WrongType; }
      match parent
      case OnDb(d) =>
        if k in d.db {
          var v := codec.parse(tag, d.db[k]);
          return if v.Some? then Found(v.value) else Missing;
        }
        return Missing;
      case OnTransaction(p) => r := p.Read(k, tag);
    }

    method Exists(k: Key) returns (r: bool)
      requires Linked()
      ensures r == T.Exists(State(), k)
      decreases depth
    {
      if k in deletes { return false; }
      if k in writes { return true; }
      match parent
      case OnDb(d) => r := k in d.db;
      case OnTransaction(p) => r := p.Exists(k);
    }

    // ---------- writing ----------

    method Write(k: Key, v: Value)
      requires Linked()
      modifies this
      ensures State() == T.Write(old(State()), k, v)
    {
      if k in deletes {
        deletes := deletes - {k};
        memoryUsage := memoryUsage - |k|;
      }
      if k in writes { memoryUsage := memoryUsage - (|k| + |writes[k].bytes|); }
      writes := writes[k := v];
      memoryUsage := memoryUsage + |k| + |v.bytes|;
    }

    method Erase(k: Key)
      requires Linked()
      modifies this
      ensures State() == T.Erase(old(State()), k)
    {
      if k in writes {
        memoryUsage := memoryUsage - (|k| + |writes[k].bytes|);
        writes := writes - {k};
      }
      if k !in deletes {
        deletes := deletes + {k};
        memoryUsage := memoryUsage + |k|;
      }
    }

    method Clear()
      requires Linked()
      modifies this
      ensures State() == T.Clear(old(State()))
    {
      writes, deletes, memoryUsage := map[], {}, 0;
    }

    method ParentWrite(k: Key, v: Value)
      requires Linked()
      modifies below
      ensures ParentState() == T.Write(old(ParentState()), k, v)
    {
      match parent
      case OnDb(d) => d.db := d.db[k := v.bytes];
      case OnTransaction(p) => p.Write(k, v);
    }

    method ParentErase(k: Key)
      requires Linked()
      modifies below
      ensures ParentState() == T.Erase(old(ParentState()), k)
    {
      match parent
      case OnDb(d) => d.db := d.db - {k};
      case OnTransaction(p) => p.Erase(k);
    }

    /** The first loop of `Commit`. */
    method CommitDeletes()
      requires Linked() && Sound(ParentState())
      modifies below
      ensures ParentState() == Absorb(old(ParentState()), map[], deletes)
    {
      ghost var p := ParentState();
      AbsorbNothing(p);
      hide Absorb, Sound;
      var todo := deletes;
      TakeMembers(deletes);
      while todo != {}
        invariant todo <= deletes
        invariant ParentState() == Absorb(p, map[], deletes - todo)
        decreases |todo|
      {
        var k := Pick(todo);
        AbsorbErase(p, deletes - todo, k);
        TakeMember(deletes, todo, k);
        ParentErase(k);
        todo := todo - {k};
      }
    }

    /** The second loop of `Commit`; `p` is the parent as it was before the first. */
    method CommitWrites(ghost p: Store)
      requires Linked() && ParentState() == Absorb(p, map[], deletes)
      modifies below
      ensures ParentState() == Absorb(p, writes, deletes)
    {
      hide Absorb, Sound;
      var left := writes.Keys;
      TakeNone(writes);
      while left != {}
        invariant left <= writes.Keys
        invariant ParentState() == Absorb(p, writes - left, deletes)
        decreases |left|
      {
        var k := Pick(left);
        TakeKey(writes, left, k);
        AbsorbWrite(p, writes - left, deletes, k, writes[k]);
        ParentWrite(k, writes[k]);
        left := left - {k};
      }
      TakeAll(writes);
    }

    /** The deletes first, then the writes, each into the parent. */
    method Commit()
      requires Linked() && Sound(State())
      modifies this, below
      ensures State() == T.Commit(old(State()))
      ensures Sound(State())
    {
      ghost var s := State();
      CommitSound(s);
      hide Absorb;
      CommitDeletes();
      CommitWrites(s.parent);
      Clear();
    }

    /** Nothing is pending, which makes the transaction answer as its parent. */
    method IsClean() returns (r: bool)
      requires Linked()
      ensures r <==> State().writes == map[] && State().deletes == {}
      ensures r ==> Flat(State()) == Flat(State().parent)
    {
      r := writes == map[] && deletes == {};
      if r { OverlayNothing(Flat(State().parent)); }
    }

    /** The guard against a negative total never fires. */
    method GetMemoryUsage() returns (r: int)
      requires Linked() && Sound(State())
      ensures r == Total(WriteCosts(State().writes)) + Total(DeleteCosts(State().deletes))
    {
      r := if memoryUsage < 0 then 0 else memoryUsage;
    }
  }
}
