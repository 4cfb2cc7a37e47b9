/**
  The merge iterator of a transaction (`CDBTransactionIterator` in src/dbwrapper.h): one cursor over
  the transaction's own writes, one over the parent, which may itself be such an iterator.
 */
module TransactionIterator {

  import opened Collections
  import opened Transactions

  // ---------- the order of keys ----------

  /** Byte by byte; a proper prefix comes first. */
  predicate Less(a: Key, b: Key) {
    b != [] && (a == [] || a[0] < b[0] || (a[0] == b[0] && Less(a[1..], b[1..])))
  }

  lemma {:induction false} LessIrreflexive(a: Key)
    ensures !Less(a, a)
  {
    if a != [] { LessIrreflexive(a[1..]); }
  }

  lemma {:induction false} LessTransitive(a: Key, b: Key, c: Key)
    requires Less(a, b) && Less(b, c)
    ensures Less(a, c)
  {
    if a != [] && a[0] == b[0] == c[0] { LessTransitive(a[1..], b[1..], c[1..]); }
  }

  lemma {:induction false} LessTotal(a: Key, b: Key)
    ensures a == b || Less(a, b) || Less(b, a)
  {
    if a != [] && b != [] && a[0] == b[0] {
      LessTotal(a[1..], b[1..]);
      assert a == [a[0]] + a[1..] && b == [b[0]] + b[1..];
    }
  }

  ghost predicate Ascending(ks: seq<Key>) {
    forall i, j :: 0 <= i < j < |ks| ==> Less(ks[i], ks[j])
  }

  // ---------- the keys of a map in order ----------

  ghost predicate IsLeast(k: Key, ks: set<Key>) {
    k in ks && forall x :: x in ks && x != k ==> Less(k, x)
  }

  lemma {:induction false} LeastExists(ks: set<Key>) returns (k: Key)
    requires ks != {}
    ensures IsLeast(k, ks)
    decreases |ks|
  {
    var x := AnyOf(ks);
    if ks == {x} {
      k := x;
    } else {
      var y := LeastExists(ks - {x});
      LessTotal(x, y);
      k := if Less(x, y) then x else y;
      forall z | z in ks && z != k ensures Less(k, z) {
        if k == x && z != y { LessTransitive(x, y, z); }
      }
    }
  }

  ghost function Least(ks: set<Key>): (k: Key)
    requires ks != {}
    ensures IsLeast(k, ks)
  {
    assert exists k :: IsLeast(k, ks) by { var k := LeastExists(ks); }
    var k :| IsLeast(k, ks);
    k
  }

  /** How `std::map` and LevelDB lay keys out. */
  ghost function Sorted(ks: set<Key>): (r: seq<Key>)
    ensures Ascending(r) && forall k :: k in r <==> k in ks
    decreases |ks|
  {
    if ks == {} then []
    else
      var rest := Sorted(ks - {Least(ks)});
      AscendingCons(Least(ks), rest);
      [Least(ks)] + rest
  }

  lemma AscendingCons(k: Key, ks: seq<Key>)
    requires Ascending(ks) && forall x :: x in ks ==> Less(k, x)
    ensures Ascending([k] + ks)
  {
  }

  /** `lower_bound`: skip the keys before `from`. */
  function DropLess(ks: seq<Key>, from: Key): seq<Key> {
    if ks != [] && Less(ks[0], from) then DropLess(ks[1..], from) else ks
  }

  lemma {:induction false} DropLessOk(ks: seq<Key>, from: Key)
    requires Ascending(ks)
    ensures Ascending(DropLess(ks, from))
    ensures forall k :: k in DropLess(ks, from) <==> k in ks && !Less(k, from)
  {
    if ks != [] {
      if Less(ks[0], from) {
        DropLessOk(ks[1..], from);
      } else {
        forall k | k in ks ensures !Less(k, from) {
          if k != ks[0] && Less(k, from) { LessTransitive(ks[0], k, from); }
        }
      }
    }
  }

  // ---------- the iterator ----------

  /** `rest` holds the keys from a cursor to its end; `parentKey` is the parent's key as last read. */
  datatype Iter =
    | DbIter(rest: seq<Key>)
    | MergeIter(rest: seq<Key>, parent: Iter, parentKey: Key, curIsParent: bool)

  predicate Fits(s: Store, it: Iter) {
    match s
    case Base(_) => it.DbIter?
    case Layer(_, _, _, parent) => it.MergeIter? && Fits(parent, it.parent)
  }

  predicate Valid(it: Iter) {
    it.rest != [] || (it.MergeIter? && Valid(it.parent))
  }

  /** How many cursor moves are left. */
  function Left(it: Iter): nat {
    |it.rest| + if it.MergeIter? then Left(it.parent) else 0
  }

  /** The chosen cursor is not at its end; the assertions of `Next` rest on this. */
  predicate Steady(it: Iter) {
    it.MergeIter? ==> Steady(it.parent) && (Valid(it) ==> if it.curIsParent then Valid(it.parent) else it.rest != [])
  }

  function GetKey(it: Iter): Key
    requires Steady(it)
  {
    if !Valid(it) then []
    else match it
      case DbIter(rest) => rest[0]
      case MergeIter(rest, _, parentKey, curIsParent) => if curIsParent then parentKey else rest[0]
  }

  predicate Hidden(s: Store, k: Key)
    requires s.Layer?
  {
    k in s.deletes || k in s.writes
  }

  function DecideCur(it: Iter): Iter
    requires it.MergeIter?
  {
    if it.rest != [] && !Valid(it.parent) then it.(curIsParent := false)
    else if it.rest == [] && Valid(it.parent) then it.(curIsParent := true)
    else if it.rest != [] && Valid(it.parent) then it.(curIsParent := !Less(it.rest[0], it.parentKey))
    else it
  }

  function Skip(s: Store, it: Iter): (r: Iter)
    requires s.Layer? && Fits(s, it) && Steady(it.parent)
    ensures Fits(s, r) && Steady(r.parent) && r == it.(parent := r.parent, parentKey := r.parentKey)
    ensures Left(r) <= Left(it)
    decreases s, Left(it.parent)
  {
    if !Valid(it.parent) then it
    else
      var it1 := it.(parentKey := GetKey(it.parent));
      if !Hidden(s, it1.parentKey) then it1 else Skip(s, it1.(parent := Next(s.parent, it.parent)))
  }

  function Next(s: Store, it: Iter): (r: Iter)
    requires Fits(s, it) && Steady(it)
    ensures Fits(s, r) && Steady(r)
    ensures if Valid(it) then Left(r) < Left(it) else r == it
    decreases s, Left(it) + 1
  {
    if !Valid(it) then it
    else match it
      case DbIter(rest) => DbIter(rest[1..])
      case MergeIter(rest, parent, _, curIsParent) =>
        if curIsParent then DecideCur(Skip(s, it.(parent := Next(s.parent, parent))))
        else DecideCur(it.(rest := rest[1..]))
  }

  ghost function SeekToFirst(s: Store): (r: Iter)
    ensures Fits(s, r) && Steady(r)
  {
    match s
    case Base(db) => DbIter(Sorted(db.Keys))
    case Layer(writes, _, _, parent) =>
      DecideCur(Skip(s, MergeIter(Sorted(writes.Keys), SeekToFirst(parent), [], false)))
  }

  ghost function Seek(s: Store, from: Key): (r: Iter)
    ensures Fits(s, r) && Steady(r)
  {
    match s
    case Base(db) => DbIter(DropLess(Sorted(db.Keys), from))
    case Layer(writes, _, _, parent) =>
      DecideCur(Skip(s, MergeIter(DropLess(Sorted(writes.Keys), from), Seek(parent, from), [], false)))
  }

  /** The loop every caller writes: read the key, move on, until the iterator is no longer valid. */
  function Collect(s: Store, it: Iter): seq<Key>
    requires Fits(s, it) && Steady(it)
    decreases Left(it)
  {
    if !Valid(it) then [] else [GetKey(it)] + Collect(s, Next(s, it))
  }

  // ---------- what is left to visit ----------

  function Shown(s: Store, ks: set<Key>): set<Key>
    requires s.Layer?
  {
    set k | k in ks && !Hidden(s, k)
  }

  function Remaining(s: Store, it: Iter): set<Key>
    requires Fits(s, it)
  {
    match it
    case DbIter(rest) => Elements(rest)
    case MergeIter(rest, parent, _, _) => Elements(rest) + Shown(s, Remaining(s.parent, parent))
  }

  /** Both cursors stand where they should: the parent's is at its least key that is not hidden. */
  ghost predicate Placed(s: Store, it: Iter)
    requires s.Layer? && Fits(s, it)
    decreases it, 0
  {
    && Ascending(it.rest) && Elements(it.rest) <= s.writes.Keys
    && Good(s.parent, it.parent)
    && (Valid(it.parent) ==> it.parentKey == GetKey(it.parent) && !Hidden(s, it.parentKey))
  }

  ghost predicate Good(s: Store, it: Iter)
    requires Fits(s, it)
    decreases it, 1
  {
    match it
    case DbIter(rest) => Ascending(rest)
    case MergeIter(_, _, _, _) => Placed(s, it) && it == DecideCur(it) && Steady(it)
  }

  /** The key shown is the least one left; a key is left exactly while the iterator is valid. */
  lemma {:induction false} CurrentIsLeast(s: Store, it: Iter)
    requires Fits(s, it) && Good(s, it)
    ensures Steady(it) && (Valid(it) <==> Remaining(s, it) != {})
    ensures Valid(it) ==> IsLeast(GetKey(it), Remaining(s, it))
  {
    match it
    case DbIter(rest) =>
      if Valid(it) { assert rest[0] in Elements(rest); }
    case MergeIter(rest, parent, parentKey, curIsParent) =>
      CurrentIsLeast(s.parent, parent);
      MergedLeast(s, it);
  }

  lemma MergedLeast(s: Store, it: Iter)
    requires s.Layer? && Fits(s, it) && Good(s, it) && Steady(it.parent)
    requires Valid(it.parent) <==> Remaining(s.parent, it.parent) != {}
    requires Valid(it.parent) ==> IsLeast(GetKey(it.parent), Remaining(s.parent, it.parent))
    ensures Valid(it) <==> Remaining(s, it) != {}
    ensures Valid(it) ==> IsLeast(GetKey(it), Remaining(s, it))
  {
    var k := GetKey(it);
    if it.rest != [] { assert it.rest[0] in Elements(it.rest); }
    if Valid(it.parent) { assert it.parentKey in Shown(s, Remaining(s.parent, it.parent)); }
    if Valid(it) {
      forall x | x in Remaining(s, it) && x != k ensures Less(k, x) {
        if x in it.rest {
          if it.curIsParent {
            LessTotal(it.rest[0], k);
            if x != it.rest[0] { LessTransitive(k, it.rest[0], x); }
          }
        } else {
          if !it.curIsParent && x != it.parentKey { LessTransitive(k, it.parentKey, x); }
        }
      }
    }
  }

  /** Skipping hidden keys leaves what will be visited as it was. */
  lemma {:induction false} SkipOk(s: Store, it: Iter)
    requires s.Layer? && Fits(s, it) && Ascending(it.rest) && Elements(it.rest) <= s.writes.Keys
    requires Good(s.parent, it.parent) && Steady(it.parent)
    ensures Placed(s, Skip(s, it)) && Remaining(s, Skip(s, it)) == Remaining(s, it)
    decreases s, Left(it.parent)
  {
    CurrentIsLeast(s.parent, it.parent);
    if Valid(it.parent) && Hidden(s, GetKey(it.parent)) {
      NextOk(s.parent, it.parent);
      SkipOk(s, it.(parent := Next(s.parent, it.parent), parentKey := GetKey(it.parent)));
    }
  }

  lemma DecideOk(s: Store, it: Iter)
    requires s.Layer? && Fits(s, it) && Placed(s, it) && Steady(it.parent)
    ensures Good(s, DecideCur(it)) && Remaining(s, DecideCur(it)) == Remaining(s, it)
  {
  }

  /** Moving on takes the current key, and only that, out of what is left. */
  lemma {:induction false} NextOk(s: Store, it: Iter)
    requires Fits(s, it) && Good(s, it) && Steady(it) && Valid(it)
    ensures Good(s, Next(s, it)) && Remaining(s, Next(s, it)) == Remaining(s, it) - {GetKey(it)}
    decreases s, Left(it) + 1
  {
    match it
    case DbIter(rest) => TailRemoves(rest);
    case MergeIter(rest, parent, _, curIsParent) =>
      if curIsParent {
        CurrentIsLeast(s.parent, parent);
        NextOk(s.parent, parent);
        var it1 := it.(parent := Next(s.parent, parent));
        assert Remaining(s, it1) == Remaining(s, it) - {GetKey(it)};
        SkipOk(s, it1);
        DecideOk(s, Skip(s, it1));
      } else {
        TailRemoves(rest);
        var it1 := it.(rest := rest[1..]);
        assert Remaining(s, it1) == Remaining(s, it) - {rest[0]};
        DecideOk(s, it1);
      }
  }

  lemma TailRemoves(ks: seq<Key>)
    requires Ascending(ks) && ks != []
    ensures Ascending(ks[1..]) && Elements(ks[1..]) == Elements(ks) - {ks[0]}
  {
    LessIrreflexive(ks[0]);
    assert forall k :: k in ks <==> k == ks[0] || k in ks[1..];
  }

  // ---------- the keys a store shows ----------

  function Visible(s: Store): set<Key> { Flat(s).Keys }

  lemma VisibleLayer(s: Store)
    requires s.Layer?
    ensures Visible(s) == s.writes.Keys + Shown(s, Visible(s.parent))
  {
  }

  function From(ks: set<Key>, from: Key): set<Key> {
    set k | k in ks && !Less(k, from)
  }

  lemma {:induction false} SeekOk(s: Store, from: Key)
    ensures Good(s, Seek(s, from)) && Remaining(s, Seek(s, from)) == From(Visible(s), from)
  {
    match s
    case Base(db) =>
      DropLessOk(Sorted(db.Keys), from);
    case Layer(writes, _, _, parent) =>
      SeekOk(parent, from);
      DropLessOk(Sorted(writes.Keys), from);
      VisibleLayer(s);
      var it := MergeIter(DropLess(Sorted(writes.Keys), from), Seek(parent, from), [], false);
      assert Remaining(s, it) == From(Visible(s), from);
      SkipOk(s, it);
      DecideOk(s, Skip(s, it));
  }

  lemma {:induction false} SeekToFirstOk(s: Store)
    ensures Good(s, SeekToFirst(s)) && Remaining(s, SeekToFirst(s)) == Visible(s)
  {
    match s
    case Base(db) =>
    case Layer(writes, _, _, parent) =>
      SeekToFirstOk(parent);
      VisibleLayer(s);
      var it := MergeIter(Sorted(writes.Keys), SeekToFirst(parent), [], false);
      SkipOk(s, it);
      DecideOk(s, Skip(s, it));
  }

  lemma {:induction false} CollectOk(s: Store, it: Iter)
    requires Fits(s, it) && Good(s, it) && Steady(it)
    ensures Ascending(Collect(s, it)) && Elements(Collect(s, it)) == Remaining(s, it)
    decreases Left(it)
  {
    CurrentIsLeast(s, it);
    if Valid(it) {
      NextOk(s, it);
      CollectOk(s, Next(s, it));
      var k, ks := GetKey(it), Collect(s, Next(s, it));
      forall x | x in ks ensures Less(k, x) { assert x in Elements(ks); }
      AscendingCons(k, ks);
      assert Elements([k] + ks) == {k} + Elements(ks);
    }
  }

  /**
    From any seek point, at any depth of transactions, the iterator shows every visible key at or
    after that point, each once, in lexicographic order, and nothing else.
   */
  lemma SeekCollects(s: Store, from: Key)
    requires Sound(s)
    ensures var ks := Collect(s, Seek(s, from));
            Ascending(ks) && forall k :: k in ks <==> Exists(s, k) && !Less(k, from)
  {
    SeekOk(s, from);
    CollectOk(s, Seek(s, from));
    var ks := Collect(s, Seek(s, from));
    forall k ensures k in ks <==> Exists(s, k) && !Less(k, from) {
      ExistsFlat(s, k);
      assert k in ks <==> k in Elements(ks);
    }
  }

  lemma SeekToFirstCollects(s: Store)
    requires Sound(s)
    ensures var ks := Collect(s, SeekToFirst(s)); Ascending(ks) && forall k :: k in ks <==> Exists(s, k)
  {
    SeekToFirstOk(s);
    CollectOk(s, SeekToFirst(s));
    var ks := Collect(s, SeekToFirst(s));
    forall k ensures k in ks <==> Exists(s, k) {
      ExistsFlat(s, k);
      assert k in ks <==> k in Elements(ks);
    }
  }

  // ---------- values ----------

  /** `GetValue`: a transaction reads the current key through itself, the database parses the bytes it stands at. */
  function GetValue(codec: Codec, s: Store, it: Iter, tag: nat): Answer
    requires Fits(s, it) && Steady(it)
  {
    if !Valid(it) then Missing
    else match s
      case Base(db) => Reply(codec, Flat(s), it.rest[0], tag)
      case Layer(_, _, _, _) => Read(codec, s, if it.curIsParent then it.parentKey else it.rest[0], tag)
  }

  function CollectValues(codec: Codec, s: Store, it: Iter, tag: nat): seq<Answer>
    requires Fits(s, it) && Steady(it)
    decreases Left(it)
  {
    if !Valid(it) then [] else [GetValue(codec, s, it, tag)] + CollectValues(codec, s, Next(s, it), tag)
  }

  lemma {:induction false} ValuesOk(codec: Codec, s: Store, it: Iter, tag: nat)
    requires Fits(s, it) && Good(s, it) && Steady(it)
    ensures var ks, vs := Collect(s, it), CollectValues(codec, s, it, tag);
            |vs| == |ks| && forall i :: 0 <= i < |ks| ==> vs[i] == Read(codec, s, ks[i], tag)
    decreases Left(it)
  {
    if Valid(it) {
      NextOk(s, it);
      ValuesOk(codec, s, Next(s, it), tag);
      assert GetValue(codec, s, it, tag) == Read(codec, s, GetKey(it), tag);
    }
  }

  /** With each key a caller's loop gets what a read of that key at that depth gives. */
  lemma SeekValues(codec: Codec, s: Store, from: Key, tag: nat)
    requires Sound(s)
    ensures var ks, vs := Collect(s, Seek(s, from)), CollectValues(codec, s, Seek(s, from), tag);
            && |vs| == |ks|
            && forall i :: 0 <= i < |ks| ==>
                 vs[i] == Read(codec, s, ks[i], tag) == Reply(codec, Flat(s), ks[i], tag) && ks[i] in Flat(s)
  {
    SeekOk(s, from);
    ValuesOk(codec, s, Seek(s, from), tag);
    SeekCollects(s, from);
    var ks := Collect(s, Seek(s, from));
    forall i | 0 <= i < |ks| ensures Read(codec, s, ks[i], tag) == Reply(codec, Flat(s), ks[i], tag) && ks[i] in Flat(s) {
      ReadsFlat(codec, s, ks[i], tag);
      assert ks[i] in ks;
    }
  }

  // ---------- the loops ----------

  method SkipDeletedAndOverwritten(s: Store, start: Iter) returns (it: Iter)
    requires s.Layer? && Fits(s, start) && Steady(start.parent)
    ensures it == Skip(s, start)
  {
    it := start;
    while Valid(it.parent)
      invariant Fits(s, it) && Steady(it.parent) && it.MergeIter?
      invariant Skip(s, it) == Skip(s, start)
      decreases Left(it.parent)
    {
      it := it.(parentKey := GetKey(it.parent));
      if !(it.parentKey in s.deletes) && !(it.parentKey in s.writes) { break; }
      it := it.(parent := Next(s.parent, it.parent));
    }
  }

  method ForEach(s: Store, start: Iter) returns (ks: seq<Key>)
    requires Fits(s, start) && Good(s, start) && Steady(start)
    ensures ks == Collect(s, start)
    ensures Ascending(ks) && Elements(ks) == Remaining(s, start)
  {
    CollectOk(s, start);
    hide Good, Remaining, Next, GetKey, Ascending, Elements, Steady, Fits, Valid, Left;
    var it := start;
    ks := [];
    while Valid(it)
      invariant Fits(s, it) && Steady(it) && Collect(s, start) == ks + Collect(s, it)
      decreases Left(it)
    {
      ks := ks + [GetKey(it)];
      it := Next(s, it);
    }
  }
}
