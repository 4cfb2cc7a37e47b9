/**
  `CheckAddrman` (src/addrman.cpp:1046-1149): the consistency check that the address manager runs
  on itself. It is proved to return zero exactly on the states that `Checked` describes.
 */
module AddrManCheck {

  import opened Collections
  import opened AddrManModel
  import opened AddrManInv
  import R = AddrManRuns

  // ---------- what a passed check says ----------

  predicate EntryChecked(s: Man, id: int)
    requires id in s.info
  {
    var i := s.info[id];
    && (if i.inTried then i.lastSuccess != 0 && i.refCount == 0 else 1 <= i.refCount <= BUCKETS_PER_ADDRESS)
    && i.addr in s.addrs && s.addrs[i.addr] == id
    && 0 <= i.randomPos < |s.random| && s.random[i.randomPos] == id
    && i.lastTry >= 0 && i.lastSuccess >= 0
  }

  ghost function NetworksOf(cfg: Config, info: map<int, Info>): set<Network> {
    set id | id in info :: cfg.network(info[id].addr)
  }

  function LocalCount(cfg: Config, info: map<int, Info>, n: Network): Counts {
    Counts(|On(cfg, info, NewIds(info, {}), n)|, |On(cfg, info, TriedIds(info), n)|)
  }

  ghost predicate NetChecked(cfg: Config, s: Man) {
    && |s.net| >= |NetworksOf(cfg, s.info)|
    && forall n :: n in s.net ==> s.net[n] == LocalCount(cfg, s.info, n)
  }

  ghost predicate Checked(cfg: Config, s: Man) {
    && |s.random| == s.nTried + s.nNew
    && (forall id :: id in s.info ==> EntryChecked(s, id))
    && |TriedIds(s.info)| == s.nTried
    && |NewIds(s.info, {})| == s.nNew
    && TriedOk(cfg, s.info, s.tried)
    && NewsOk(cfg, s.info, s.news)
    && NetChecked(cfg, s)
  }

  /** Every consistent state passes: with `RunKeeps`, so does every state a run can reach. */
  lemma ValidChecked(cfg: Config, s: Man)
    requires Valid(cfg, s)
    ensures Checked(cfg, s)
  {
    assert s.info.Keys == NewIds(s.info, {}) + TriedIds(s.info);
    PermutationSize(s.info, s.random);
    NetworksCounted(cfg, s);
  }

  /**
    From the empty manager, with positive times, every run of public operations ends in a state on
    which `CheckAddrman` returns zero.
   */
  lemma RunChecked(cfg: Config, ops: seq<R.Op>)
    requires cfg.Ok() && R.AllAllowed(cfg, EMPTY, ops)
    ensures var s := R.Run(cfg, EMPTY, ops);
            Checked(cfg, s) && forall t :: t in s.news ==> t.bucket < cfg.newBuckets
  {
    R.EmptyValid(cfg);
    R.RunKeeps(cfg, EMPTY, ops);
    ValidChecked(cfg, R.Run(cfg, EMPTY, ops));
  }

  lemma NetworksCounted(cfg: Config, s: Man)
    requires CountsOk(cfg, s, {})
    ensures NetChecked(cfg, s)
  {
    forall n | n in NetworksOf(cfg, s.info) ensures n in s.net {
      var id :| id in s.info && cfg.network(s.info[id].addr) == n;
      assert id in On(cfg, s.info, NewIds(s.info, {}), n) || id in On(cfg, s.info, TriedIds(s.info), n);
      assert CountAt(s.net, n) != Counts(0, 0);
    }
    SubsetSize(NetworksOf(cfg, s.info), s.net.Keys);
  }

  /** The check sees the counters in full exactly if every network that has an entry has a counter. */
  lemma CheckedCounts(cfg: Config, s: Man)
    requires Checked(cfg, s)
    ensures (forall n :: CountAt(s.net, n) == LocalCount(cfg, s.info, n)) <==> NetworksOf(cfg, s.info) <= s.net.Keys
  {
    forall n
      ensures n in s.net ==> CountAt(s.net, n) == LocalCount(cfg, s.info, n)
      ensures n !in s.net ==> (CountAt(s.net, n) == LocalCount(cfg, s.info, n) <==> n !in NetworksOf(cfg, s.info))
    {
      NetworkEmpty(cfg, s.info, n);
    }
  }

  lemma NetworkEmpty(cfg: Config, info: map<int, Info>, n: Network)
    ensures LocalCount(cfg, info, n) == Counts(0, 0) <==> n !in NetworksOf(cfg, info)
  {
    var a, b := On(cfg, info, NewIds(info, {}), n), On(cfg, info, TriedIds(info), n);
    assert forall id :: id in info ==> cfg.network(info[id].addr) in NetworksOf(cfg, info);
    if n in NetworksOf(cfg, info) {
      var id :| id in info && cfg.network(info[id].addr) == n;
      assert id in a || id in b;
    } else {
      assert a == {} && b == {};
    }
  }

  /** A manager with one tried address, and a counter for a network that has none. */
  function Uncounted(cfg: Config, a: Addr, other: Network): Man {
    var i := Info(a, cfg.host(a), 0, {}, 0, 0, 1, 0, 0, true, 0);
    Man(1, map[0 := i], map[a := 0], [0], 1, map[cfg.TriedSlot(a) := 0], 0, map[], 1, {}, map[other := Counts(0, 0)])
  }

  /** It passes the check although nothing is counted for the network of its only address. */
  lemma UncountedPasses(cfg: Config, a: Addr, other: Network)
    requires other != cfg.network(a)
    ensures var s := Uncounted(cfg, a, other);
            && Checked(cfg, s)
            && CountAt(s.net, cfg.network(a)) == Counts(0, 0)
            && LocalCount(cfg, s.info, cfg.network(a)) == Counts(0, 1)
  {
    var s := Uncounted(cfg, a, other);
    var n := cfg.network(a);
    assert s.info.Keys == {0};
    assert NewIds(s.info, {}) == {} && TriedIds(s.info) == {0};
    assert On(cfg, s.info, {}, n) == {} && On(cfg, s.info, {0}, n) == {0};
    assert On(cfg, s.info, {}, other) == {} && On(cfg, s.info, {0}, other) == {};
    assert NetworksOf(cfg, s.info) == {n};
    assert Refs(s.news, 0) == {};
    assert EntryChecked(s, 0);
    assert s.net.Keys == {other};
  }

  lemma SubsetSize<T>(a: set<T>, b: set<T>)
    requires a <= b
    ensures |a| <= |b|
  {
    assert b == a + (b - a);
  }

  /** The ids in the first `n` places. */
  function FirstIds(s: seq<int>, n: nat): (ids: set<int>)
    requires n <= |s|
    ensures forall k :: 0 <= k < n ==> s[k] in ids
    ensures forall id :: id in ids ==> exists k :: 0 <= k < n && s[k] == id
  {
    if n == 0 then {} else FirstIds(s, n - 1) + {s[n - 1]}
  }

  lemma {:induction false} DistinctSize(s: seq<int>, n: nat)
    requires n <= |s| && forall i, j :: 0 <= i < j < |s| ==> s[i] != s[j]
    ensures |FirstIds(s, n)| == n
  {
    if n > 0 {
      DistinctSize(s, n - 1);
      assert s[n - 1] !in FirstIds(s, n - 1);
    }
  }

  /** A permutation of the ids has as many places as there are entries. */
  lemma PermutationSize(info: map<int, Info>, random: seq<int>)
    requires RandomOk(info, random)
    ensures |random| == |info.Keys|
  {
    var ids := FirstIds(random, |random|);
    forall id | id in info ensures id in ids { assert random[info[id].randomPos] == id; }
    assert ids == info.Keys;
    DistinctSize(random, |random|);
  }

  /** Every place is some entry's. */
  lemma PlaceTaken(s: Man, k: int) returns (id: int)
    requires (forall id :: id in s.info ==> EntryChecked(s, id)) && |s.random| == |s.info.Keys| && 0 <= k < |s.random|
    ensures id in s.info && s.info[id].randomPos == k
  {
    var places, all := set id | id in s.info :: s.info[id].randomPos, Upto(|s.random|);
    ImageSize(s);
    assert places <= all;
    SubsetFull(places, all);
    assert k in places;
    id :| id in s.info && s.info[id].randomPos == k;
  }

  /**
    The other way round for `vRandom`: the check only follows each entry to its place and compares
    sizes, and that already makes `vRandom` a permutation.
   */
  lemma CheckedPermutation(cfg: Config, s: Man)
    requires Checked(cfg, s)
    ensures RandomOk(s.info, s.random)
  {
    hide TriedOk, NewsOk, NetChecked;
    assert NewIds(s.info, {}) + TriedIds(s.info) == s.info.Keys;
    hide NewIds, TriedIds;
    forall k | 0 <= k < |s.random|
      ensures s.random[k] in s.info && s.info[s.random[k]].randomPos == k
    {
      var id := PlaceTaken(s, k);
      assert EntryChecked(s, id);
    }
    assert forall id :: id in s.info ==> EntryChecked(s, id);
  }

  lemma SubsetFull<T>(a: set<T>, b: set<T>)
    requires a <= b && |a| == |b|
    ensures a == b
  {
    assert b == a + (b - a);
  }

  function Upto(n: nat): (r: set<int>)
    ensures |r| == n && forall k :: k in r <==> 0 <= k < n
  {
    if n == 0 then {} else Upto(n - 1) + {n - 1}
  }

  /** Distinct entries sit in distinct places. */
  lemma ImageSize(s: Man)
    requires forall id :: id in s.info ==> EntryChecked(s, id)
    ensures |set id | id in s.info :: s.info[id].randomPos| == |s.info.Keys|
  {
    PlacesSize(s, s.info.Keys);
  }

  lemma {:induction false} PlacesSize(s: Man, ids: set<int>)
    requires ids <= s.info.Keys && forall id :: id in s.info ==> EntryChecked(s, id)
    ensures |set id | id in ids :: s.info[id].randomPos| == |ids|
    decreases |ids|
  {
    var all := set id | id in ids :: s.info[id].randomPos;
    if ids == {} {
      assert all == {};
    } else {
      var one := AnyOf(ids);
      var rest := ids - {one};
      PlacesSize(s, rest);
      var places := set id | id in rest :: s.info[id].randomPos;
      assert (set id | id in ids :: s.info[id].randomPos) == places + {s.info[one].randomPos};
      assert s.info[one].randomPos !in places by {
        assert EntryChecked(s, one) && forall id :: id in rest ==> EntryChecked(s, id);
      }
    }
  }

  // ---------- the check itself ----------

  function RefCounts(info: map<int, Info>): map<int, int> {
    map id | id in NewIds(info, {}) :: info[id].refCount
  }

  ghost predicate CountsMatch(cfg: Config, info: map<int, Info>, local: map<Network, Counts>) {
    && local.Keys == NetworksOf(cfg, info)
    && forall n :: CountAt(local, n) == LocalCount(cfg, info, n)
  }

  lemma CountsMatchNone(cfg: Config)
    ensures CountsMatch(cfg, map[], map[])
  {
    assert NewIds(map[], {}) == {} && TriedIds(map[]) == {};
    assert forall n :: On(cfg, map[], {}, n) == {};
  }

  lemma OneMoreId(cfg: Config, done: map<int, Info>, id: int, i: Info)
    requires id !in done
    ensures var next := done[id := i];
            && TriedIds(next) == (if i.inTried then TriedIds(done) + {id} else TriedIds(done))
            && NewIds(next, {}) == (if i.inTried then NewIds(done, {}) else NewIds(done, {}) + {id})
            && NetworksOf(cfg, next) == NetworksOf(cfg, done) + {cfg.network(i.addr)}
  {
    var next := done[id := i];
    assert next[id] == i;
    forall k | k in done ensures cfg.network(done[k].addr) in NetworksOf(cfg, next) { assert next[k] == done[k]; }
  }

  lemma OneMoreCount(cfg: Config, done: map<int, Info>, id: int, i: Info, m: Network)
    requires id !in done
    ensures var d := if cfg.network(i.addr) == m then 1 else 0;
            var c := LocalCount(cfg, done, m);
            LocalCount(cfg, done[id := i], m) == if i.inTried then Counts(c.nNew, c.nTried + d)
                else Counts(c.nNew + d, c.nTried)
  {
    var next := done[id := i];
    OneMoreId(cfg, done, id, i);
    OnSame(cfg, next, done, NewIds(done, {}), m);
    OnSame(cfg, next, done, TriedIds(done), m);
    if i.inTried { OnAdd(cfg, next, TriedIds(done), id, m); } else { OnAdd(cfg, next, NewIds(done, {}), id, m); }
  }

  /** One more entry: it joins one of the two id sets and the counts of its network. */
  lemma OneMoreEntry(cfg: Config, done: map<int, Info>, local: map<Network, Counts>, id: int, i: Info)
    requires id !in done && CountsMatch(cfg, done, local)
    ensures var next := done[id := i];
            && TriedIds(next) == (if i.inTried then TriedIds(done) + {id} else TriedIds(done))
            && RefCounts(next) == (if i.inTried then RefCounts(done) else RefCounts(done)[id := i.refCount])
            && CountsMatch(cfg, next, Bump(local, cfg.network(i.addr), if i.inTried then 0 else 1, if i.inTried then 1 else 0))
  {
    hide LocalCount, NetworksOf;
    OneMoreId(cfg, done, id, i);
    var bumped := Bump(local, cfg.network(i.addr), if i.inTried then 0 else 1, if i.inTried then 1 else 0);
    forall m ensures CountAt(bumped, m) == LocalCount(cfg, done[id := i], m) {
      OneMoreCount(cfg, done, id, i, m);
      assert CountAt(local, m) == LocalCount(cfg, done, m);
    }
  }

  /** The tests of one entry, with the code of the first that fails. */
  method CheckEntry(s: Man, id: int) returns (code: int)
    requires id in s.info
    ensures code == 0 <==> EntryChecked(s, id)
  {
    var i := s.info[id];
    if i.inTried {
      if i.lastSuccess == 0 { return -1; }
      if i.refCount != 0 { return -2; }
    } else {
      if i.refCount < 0 || i.refCount > BUCKETS_PER_ADDRESS { return -3; }
      if i.refCount == 0 { return -4; }
    }
    if i.addr !in s.addrs || s.addrs[i.addr] != id { return -5; }
    if i.randomPos < 0 || i.randomPos >= |s.random| || s.random[i.randomPos] != id { return -14; }
    if i.lastTry < 0 { return -6; }
    if i.lastSuccess < 0 { return -8; }
    return 0;
  }

  method CheckEntries(cfg: Config, s: Man)
    returns (code: int, setTried: set<int>, mapNew: map<int, int>, local: map<Network, Counts>)
    ensures code == 0 <==> forall id :: id in s.info ==> EntryChecked(s, id)
    ensures code == 0 ==>
              setTried == TriedIds(s.info) && mapNew == RefCounts(s.info) && CountsMatch(cfg, s.info, local)
  {
    setTried, mapNew, local := {}, map[], map[];
    var todo := s.info.Keys;
    TakeNone(s.info);
    CountsMatchNone(cfg);
    assert TriedIds(map[]) == {} && NewIds(map[], {}) == {};
    assert RefCounts(map[]) == map[];
    hide CountsMatch, TriedIds, RefCounts, EntryChecked;
    while todo != {}
      invariant todo <= s.info.Keys
      invariant forall id :: id in s.info && id !in todo ==> EntryChecked(s, id)
      invariant setTried == TriedIds(s.info - todo) && mapNew == RefCounts(s.info - todo)
      invariant CountsMatch(cfg, s.info - todo, local)
      decreases |todo|
    {
      var id := Pick(todo);
      var i := s.info[id];
      TakeKey(s.info, todo, id);
      OneMoreEntry(cfg, s.info - todo, local, id, i);
      code := CheckEntry(s, id);
      if code != 0 { return; }
      if i.inTried {
        setTried := setTried + {id};
        local := Bump(local, cfg.network(i.addr), 0, 1);
      } else {
        mapNew := mapNew[id := i.refCount];
        local := Bump(local, cfg.network(i.addr), 1, 0);
      }
      todo := todo - {id};
    }
    TakeAll(s.info);
    code := 0;
  }

  ghost predicate TriedSlotGood(cfg: Config, s: Man, t: Slot)
    requires t in s.tried
  {
    s.tried[t] in s.info && s.info[s.tried[t]].inTried && cfg.TriedSlot(s.info[s.tried[t]].addr) == t
  }

  predicate Seated(cfg: Config, s: Man, id: int)
    requires id in s.info
  {
    cfg.TriedSlot(s.info[id].addr) in s.tried && s.tried[cfg.TriedSlot(s.info[id].addr)] == id
  }

  /** The loop over the tried table: it passes exactly when all its slots are right, and `left` are the ids not met. */
  method CheckTriedTable(cfg: Config, s: Man, setTried: set<int>) returns (code: int, left: set<int>)
    requires setTried == TriedIds(s.info)
    ensures code == 0 <==> forall t :: t in s.tried ==> TriedSlotGood(cfg, s, t)
    ensures code == 0 ==> forall id :: id in left <==> id in s.info && s.info[id].inTried && !Seated(cfg, s, id)
  {
    left := setTried;
    var todo := s.tried.Keys;
    while todo != {}
      invariant todo <= s.tried.Keys
      invariant forall t :: t in s.tried && t !in todo ==> TriedSlotGood(cfg, s, t)
      invariant forall id :: id in left <==>
                  id in s.info && s.info[id].inTried && (!Seated(cfg, s, id) || cfg.TriedSlot(s.info[id].addr) in todo)
      decreases |todo|
    {
      var t :| t in todo;
      var id := s.tried[t];
      if id !in left { return -11, left; }
      if cfg.TriedSlot(s.info[id].addr).bucket != t.bucket { return -17, left; }
      if cfg.TriedSlot(s.info[id].addr).pos != t.pos { return -18, left; }
      assert TriedSlotGood(cfg, s, t);
      todo := todo - {t};
      left := left - {id};
    }
    code := 0;
  }

  ghost predicate NewSlotGood(cfg: Config, s: Man, t: Slot)
    requires t in s.news
  {
    s.news[t] in s.info && !s.info[s.news[t]].inTried && AtHome(cfg, s.info[s.news[t]].addr, t)
  }

  /** What is left of the reference counts after the slots in `seen` were met. */
  ghost predicate Remaining(info: map<int, Info>, seen: map<Slot, int>, mapNew: map<int, int>) {
    && mapNew.Keys <= NewIds(info, {})
    && forall id :: id in NewIds(info, {}) ==>
         && |Refs(seen, id)| <= info[id].refCount
         && (id in mapNew <==> |Refs(seen, id)| < info[id].refCount)
         && (id in mapNew ==> mapNew[id] == info[id].refCount - |Refs(seen, id)|)
  }

  lemma RemainingStep(info: map<int, Info>, seen: map<Slot, int>, mapNew: map<int, int>, t: Slot, id: int)
    requires Remaining(info, seen, mapNew) && t !in seen && id in mapNew
    ensures Remaining(info, seen[t := id], if mapNew[id] == 1 then mapNew - {id} else mapNew[id := mapNew[id] - 1])
  {
    RefsAdd(seen, t, id);
  }

  lemma RefsWithin(seen: map<Slot, int>, news: map<Slot, int>, t: Slot)
    requires t in news && t !in seen && forall u :: u in seen ==> u in news && seen[u] == news[u]
    ensures |Refs(seen, news[t])| < |Refs(news, news[t])|
  {
    var a, b := Refs(seen, news[t]), Refs(news, news[t]);
    assert a + {t} <= b;
    SubsetSize(a + {t}, b);
  }

  method CheckNewTable(cfg: Config, s: Man, counts: map<int, int>) returns (code: int, mapNew: map<int, int>)
    requires counts == RefCounts(s.info) && forall id :: id in NewIds(s.info, {}) ==> s.info[id].refCount >= 1
    requires forall t :: t in s.news ==> t.bucket < cfg.newBuckets
    ensures code == 0 ==> (forall t :: t in s.news ==> NewSlotGood(cfg, s, t)) && Remaining(s.info, s.news, mapNew)
    ensures code != 0 ==> !NewsOk(cfg, s.info, s.news)
  {
    mapNew := counts;
    var todo := s.news.Keys;
    TakeNone(s.news);
    assert forall id :: Refs(s.news - todo, id) == {};
    while todo != {}
      invariant todo <= s.news.Keys
      invariant forall t :: t in s.news && t !in todo ==> NewSlotGood(cfg, s, t)
      invariant Remaining(s.info, s.news - todo, mapNew)
      decreases |todo|
    {
      var t :| t in todo;
      var id := s.news[t];
      TakeKey(s.news, todo, t);
      if id !in mapNew {
        RefsWithin(s.news - todo, s.news, t);
        return -12, mapNew;
      }
      assert id in NewIds(s.info, {});
      if cfg.position(s.info[id].addr, true, t.bucket) != t.pos {
        assert !AtHome(cfg, s.info[id].addr, t);
        return -19, mapNew;
      }
      assert NewSlotGood(cfg, s, t);
      RemainingStep(s.info, s.news - todo, mapNew, t, id);
      mapNew := if mapNew[id] == 1 then mapNew - {id} else mapNew[id := mapNew[id] - 1];
      todo := todo - {t};
    }
    TakeAll(s.news);
    code := 0;
  }

  method CheckNetworks(cfg: Config, s: Man, local: map<Network, Counts>) returns (code: int)
    requires CountsMatch(cfg, s.info, local)
    ensures code == 0 <==> NetChecked(cfg, s)
  {
    if |s.net| < |local| { return -20; }
    var todo := s.net.Keys;
    while todo != {}
      invariant todo <= s.net.Keys
      invariant forall n :: n in s.net && n !in todo ==> s.net[n] == LocalCount(cfg, s.info, n)
      decreases |todo|
    {
      var n := Pick(todo);
      var c := CountAt(local, n);
      if c.nNew != s.net[n].nNew || c.nTried != s.net[n].nTried { return -21; }
      todo := todo - {n};
    }
    return 0;
  }

  /** With nothing left over, the slots that were met are exactly the references that are counted. */
  lemma NothingLeft(cfg: Config, s: Man, mapNew: map<int, int>)
    requires forall id :: id in s.info ==> EntryChecked(s, id)
    requires forall t :: t in s.news ==> NewSlotGood(cfg, s, t)
    requires Remaining(s.info, s.news, mapNew)
    ensures mapNew == map[] <==> NewsOk(cfg, s.info, s.news)
  {
    forall id | id in s.info && s.info[id].inTried ensures s.info[id].refCount == |Refs(s.news, id)| {
      assert EntryChecked(s, id);
      assert Refs(s.news, id) == {};
    }
    if NewsOk(cfg, s.info, s.news) {
      forall id | id in NewIds(s.info, {}) ensures id !in mapNew {
        assert s.info[id].refCount == |Refs(s.news, id)|;
      }
      assert forall id :: id in mapNew ==> id in NewIds(s.info, {});
    }
    if mapNew == map[] {
      forall id | id in s.info ensures s.info[id].refCount == |Refs(s.news, id)| {
        if !s.info[id].inTried { assert id in NewIds(s.info, {}) && id !in mapNew; }
      }
      assert forall t :: t in s.news ==> NewSlotGood(cfg, s, t);
    }
  }

  lemma AllSeated(cfg: Config, s: Man, left: set<int>)
    requires forall t :: t in s.tried ==> TriedSlotGood(cfg, s, t)
    requires forall id :: id in left <==> id in s.info && s.info[id].inTried && !Seated(cfg, s, id)
    ensures left == {} <==> TriedOk(cfg, s.info, s.tried)
  {
    if TriedOk(cfg, s.info, s.tried) {
      forall id ensures id !in left {
        if id in s.info && s.info[id].inTried { assert Seated(cfg, s, id); }
      }
    }
    if left == {} {
      forall id | id in s.info && s.info[id].inTried ensures Seated(cfg, s, id) { assert id !in left; }
      assert forall t :: t in s.tried ==> TriedSlotGood(cfg, s, t);
    }
  }

  /** `CheckAddrman` returns zero exactly on the states that `Checked` describes, with a key that is not null. */
  method CheckAddrman(cfg: Config, s: Man, nKey: nat) returns (code: int)
    requires forall t :: t in s.news ==> t.bucket < cfg.newBuckets
    ensures code == 0 <==> Checked(cfg, s) && nKey != 0
  {
    if |s.random| != s.nTried + s.nNew { return -7; }
    var setTried, mapNew, local;
    code, setTried, mapNew, local := CheckEntries(cfg, s);
    if code != 0 { return; }
    assert forall id :: id in NewIds(s.info, {}) ==> EntryChecked(s, id);
    if |setTried| != s.nTried { return -9; }
    if |mapNew| != s.nNew { assert mapNew.Keys == NewIds(s.info, {}); return -10; }
    assert mapNew.Keys == NewIds(s.info, {});
    code, setTried := CheckTriedTable(cfg, s, setTried);
    if code != 0 { return; }
    AllSeated(cfg, s, setTried);
    code, mapNew := CheckNewTable(cfg, s, mapNew);
    if code != 0 { return; }
    NothingLeft(cfg, s, mapNew);
    if |setTried| != 0 { return -13; }
    if |mapNew| != 0 { return -15; }
    if nKey == 0 { return -16; }
    code := CheckNetworks(cfg, s, local);
  }
}
