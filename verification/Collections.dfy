/** Small facts about finite collections that several modules share. */
module Collections {

  datatype Option<+T> = None | Some(value: T)

  /** What a map holds at a key. */
  function Lookup<K, V>(m: map<K, V>, k: K): Option<V> {
    if k in m then Some(m[k]) else None
  }

  lemma AnyOf<T>(s: set<T>) returns (x: T)
    requires s != {}
    ensures x in s
  {
    x :| x in s;
  }

  /** Some member of a set. */
  method Pick<T(==)>(s: set<T>) returns (x: T)
    requires s != {}
    ensures x in s
  {
    x :| x in s;
  }

  /** The sum of the values of a finite map. */
  ghost function Total<K(!new)>(m: map<K, nat>): nat {
    if m == map[] then 0
    else
      var k :| k in m;
      m[k] + Total(m - {k})
  }

  /** The sum does not depend on the key that is taken out first. */
  lemma {:induction false} TotalRemove<K(!new)>(m: map<K, nat>, k: K)
    requires k in m
    ensures Total(m) == m[k] + Total(m - {k})
    decreases |m|
  {
    var j :| j in m && Total(m) == m[j] + Total(m - {j});
    if j != k {
      TotalRemove(m - {j}, k);
      TotalRemove(m - {k}, j);
      assert m - {j} - {k} == m - {k} - {j};
    }
  }

  lemma TotalInsert<K(!new)>(m: map<K, nat>, k: K, v: nat)
    requires k !in m
    ensures Total(m[k := v]) == Total(m) + v
  {
    TotalRemove(m[k := v], k);
    assert m[k := v] - {k} == m;
  }

  lemma TotalUpdate<K(!new)>(m: map<K, nat>, k: K, v: nat)
    requires k in m
    ensures Total(m[k := v]) == Total(m) - m[k] + v
  {
    TotalRemove(m, k);
    TotalRemove(m[k := v], k);
    assert m[k := v] - {k} == m - {k};
  }

  lemma Reinsert<K, V>(a: map<K, V>, b: map<K, V>, k: K)
    requires k in a && k !in b
    ensures k !in (a - {k}) + b
    ensures ((a - {k}) + b)[k := a[k]] == a + b
  {
  }

  /** The sum over two maps with disjoint keys is the sum of the sums. */
  lemma {:induction false} TotalUnion<K(!new)>(a: map<K, nat>, b: map<K, nat>)
    requires a.Keys !! b.Keys
    ensures Total(a + b) == Total(a) + Total(b)
    decreases |a|
  {
    if a == map[] {
      assert a + b == b;
    } else {
      var k :| k in a;
      TotalUnion(a - {k}, b);
      TotalRemove(a, k);
      Reinsert(a, b, k);
      TotalInsert((a - {k}) + b, k, a[k]);
    }
  }

  // Loops over a map keep the set of keys still to do; what is done is the map without them.

  lemma TakeNone<K, V>(m: map<K, V>)
    ensures m - m.Keys == map[]
  {
  }

  lemma TakeKey<K, V>(m: map<K, V>, todo: set<K>, k: K)
    requires todo <= m.Keys && k in todo
    ensures k !in m - todo
    ensures m - (todo - {k}) == (m - todo)[k := m[k]]
  {
  }

  lemma TakeAll<K, V>(m: map<K, V>)
    ensures m - {} == m
  {
  }

  lemma TakeMember<K>(all: set<K>, todo: set<K>, k: K)
    requires todo <= all && k in todo
    ensures (all - todo) + {k} == all - (todo - {k})
  {
  }

  lemma TakeMembers<K>(all: set<K>)
    ensures all - all == {} && all - {} == all
  {
  }

  /** Maps that agree at every key are equal. */
  lemma SameLookups<K, V>(a: map<K, V>, b: map<K, V>)
    requires forall k :: k in a || k in b ==> Lookup(a, k) == Lookup(b, k)
    ensures a == b
  {
    assert forall k :: k in a ==> Lookup(a, k) == Lookup(b, k);
    assert forall k :: k in b ==> Lookup(a, k) == Lookup(b, k);
  }
}
