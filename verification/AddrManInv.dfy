/** What the address manager's indexes owe each other, and that each small update keeps it. */
module AddrManInv {

  import opened Collections
  import opened AddrManModel

  // ---------- the invariant, index by index ----------

  /** Ids and addresses name each other. */
  ghost predicate IndexOk(s: Man) {
    && (forall id :: id in s.info ==>
          0 <= id < s.idCount && s.info[id].addr in s.addrs && s.addrs[s.info[id].addr] == id)
    && (forall a :: a in s.addrs ==> s.addrs[a] in s.info && s.info[s.addrs[a]].addr == a)
  }

  /** `vRandom` is a permutation of the ids, and every entry knows its place in it. */
  ghost predicate RandomOk(info: map<int, Info>, random: seq<int>) {
    && (forall id :: id in info ==> 0 <= info[id].randomPos < |random| && random[info[id].randomPos] == id)
    && (forall k :: 0 <= k < |random| ==> random[k] in info && info[random[k]].randomPos == k)
  }

  /** A tried entry sits in its own slot of the tried table, and nothing else sits there. */
  ghost predicate TriedOk(cfg: Config, info: map<int, Info>, tried: map<Slot, int>) {
    && (forall t :: t in tried ==> tried[t] in info && info[tried[t]].inTried && cfg.TriedSlot(info[tried[t]].addr) == t)
    && (forall id :: id in info && info[id].inTried ==>
          cfg.TriedSlot(info[id].addr) in tried && tried[cfg.TriedSlot(info[id].addr)] == id)
  }

  function Refs(news: map<Slot, int>, id: int): set<Slot> {
    set t | t in news && news[t] == id
  }

  predicate AtHome(cfg: Config, a: Addr, t: Slot) {
    t.bucket < cfg.newBuckets && t == cfg.NewSlotIn(a, t.bucket)
  }

  /** The new table refers to entries that are not tried, and reference counts count its slots. */
  ghost predicate NewsOk(cfg: Config, info: map<int, Info>, news: map<Slot, int>) {
    && (forall t :: t in news ==> news[t] in info && !info[news[t]].inTried && AtHome(cfg, info[news[t]].addr, t))
    && (forall id :: id in info ==> info[id].refCount == |Refs(news, id)|)
  }

  /** Entries outside `loose` that are not tried have a reference. */
  predicate EntryOk(i: Info, mayBeLoose: bool) {
    && i.lastTry >= 0 && i.lastSuccess >= 0
    && 0 <= i.refCount <= BUCKETS_PER_ADDRESS
    && (i.inTried ==> i.lastSuccess > 0 && i.refCount == 0)
    && (!i.inTried && !mayBeLoose ==> i.refCount >= 1)
  }

  ghost predicate EntriesOk(info: map<int, Info>, loose: set<int>) {
    forall id :: id in info ==> EntryOk(info[id], id in loose)
  }

  function NewIds(info: map<int, Info>, limbo: set<int>): set<int> {
    set id | id in info && !info[id].inTried && id !in limbo
  }

  function TriedIds(info: map<int, Info>): set<int> {
    set id | id in info && info[id].inTried
  }

  function On(cfg: Config, info: map<int, Info>, ids: set<int>, n: Network): set<int> {
    set id | id in ids && id in info && cfg.network(info[id].addr) == n
  }

  /** The global and the per-network counters count entries; those in `limbo` are between tables. */
  ghost predicate CountsOk(cfg: Config, s: Man, limbo: set<int>) {
    && s.nNew == |NewIds(s.info, limbo)|
    && s.nTried == |TriedIds(s.info)|
    && (forall n :: CountAt(s.net, n) ==
          Counts(|On(cfg, s.info, NewIds(s.info, limbo), n)|, |On(cfg, s.info, TriedIds(s.info), n)|))
  }

  /** Pending collisions are few, refer to ids handed out before, and each known one has a filled tried slot. */
  ghost predicate CollisionsOk(cfg: Config, s: Man) {
    && |s.collisions| <= MAX_COLLISIONS
    && (forall id :: id in s.collisions ==> id < s.idCount)
    && (forall id :: id in s.collisions && id in s.info ==> cfg.TriedSlot(s.info[id].addr) in s.tried)
  }

  ghost predicate Inv(cfg: Config, s: Man, loose: set<int>, limbo: set<int>) {
    && s.idCount >= 0
    && IndexOk(s)
    && RandomOk(s.info, s.random)
    && TriedOk(cfg, s.info, s.tried)
    && NewsOk(cfg, s.info, s.news)
    && EntriesOk(s.info, loose)
    && CountsOk(cfg, s, limbo)
  }

  /** Between operations nothing is loose and nothing is between tables. */
  ghost predicate Valid(cfg: Config, s: Man) {
    Inv(cfg, s, {}, {}) && CollisionsOk(cfg, s)
  }

  // ---------- counting ----------

  /** Only the address and the table of an entry matter to the counters. */
  lemma CountsCongruent(cfg: Config, s: Man, t: Man, limbo: set<int>)
    requires CountsOk(cfg, s, limbo)
    requires s.info.Keys == t.info.Keys && s.net == t.net && s.nNew == t.nNew && s.nTried == t.nTried
    requires forall id :: id in s.info ==> s.info[id].addr == t.info[id].addr && s.info[id].inTried == t.info[id].inTried
    ensures CountsOk(cfg, t, limbo)
  {
    SameIds(s.info, t.info, limbo);
    forall n
      ensures On(cfg, t.info, NewIds(t.info, limbo), n) == On(cfg, s.info, NewIds(s.info, limbo), n)
      ensures On(cfg, t.info, TriedIds(t.info), n) == On(cfg, s.info, TriedIds(s.info), n)
    {
      OnSame(cfg, t.info, s.info, NewIds(s.info, limbo), n);
      OnSame(cfg, t.info, s.info, TriedIds(s.info), n);
    }
  }

  lemma SameIds(a: map<int, Info>, b: map<int, Info>, limbo: set<int>)
    requires a.Keys == b.Keys
    requires forall id :: id in a ==> a[id].inTried == b[id].inTried
    ensures NewIds(a, limbo) == NewIds(b, limbo) && TriedIds(a) == TriedIds(b)
  {
    forall id
      ensures id in NewIds(a, limbo) <==> id in NewIds(b, limbo)
      ensures id in TriedIds(a) <==> id in TriedIds(b)
    {
      assert id in a <==> id in b;
    }
  }

  lemma OnAdd(cfg: Config, info: map<int, Info>, ids: set<int>, id: int, n: Network)
    requires id in info && id !in ids
    ensures |On(cfg, info, ids + {id}, n)| == |On(cfg, info, ids, n)| + (if cfg.network(info[id].addr) == n then 1 else 0)
  {
    if cfg.network(info[id].addr) == n {
      assert On(cfg, info, ids + {id}, n) == On(cfg, info, ids, n) + {id};
    } else {
      assert On(cfg, info, ids + {id}, n) == On(cfg, info, ids, n);
    }
  }

  lemma OnSame(cfg: Config, a: map<int, Info>, b: map<int, Info>, ids: set<int>, n: Network)
    requires forall id :: id in ids ==> id in a && id in b && a[id].addr == b[id].addr
    ensures On(cfg, a, ids, n) == On(cfg, b, ids, n)
  {
    forall id ensures id in On(cfg, a, ids, n) <==> id in On(cfg, b, ids, n) {
      if id in ids { assert a[id].addr == b[id].addr; }
    }
  }

  /** An entry joins the counted new entries. */
  lemma CountNewIds(cfg: Config, s: Man, t: Man, limbo: set<int>, limbo': set<int>, id: int)
    requires CountsOk(cfg, s, limbo)
    requires id in t.info && id !in NewIds(s.info, limbo)
    requires NewIds(t.info, limbo') == NewIds(s.info, limbo) + {id}
    requires TriedIds(t.info) == TriedIds(s.info)
    requires forall k :: k in s.info && k in t.info ==> s.info[k].addr == t.info[k].addr
    requires NewIds(s.info, limbo) <= t.info.Keys
    requires t.nNew == s.nNew + 1 && t.nTried == s.nTried
    requires t.net == Bump(s.net, cfg.network(t.info[id].addr), 1, 0)
    ensures CountsOk(cfg, t, limbo')
  {
    forall n
      ensures CountAt(t.net, n) ==
              Counts(|On(cfg, t.info, NewIds(t.info, limbo'), n)|, |On(cfg, t.info, TriedIds(t.info), n)|)
    {
      OnSame(cfg, s.info, t.info, NewIds(s.info, limbo), n);
      OnSame(cfg, s.info, t.info, TriedIds(s.info), n);
      OnAdd(cfg, t.info, NewIds(s.info, limbo), id, n);
    }
  }

  /** An entry leaves the counted new entries, because it moves on or is deleted. */
  lemma UncountNew(cfg: Config, s: Man, t: Man, limbo: set<int>, limbo': set<int>, id: int)
    requires CountsOk(cfg, s, limbo)
    requires id in s.info && id in NewIds(s.info, limbo)
    requires NewIds(t.info, limbo') == NewIds(s.info, limbo) - {id}
    requires TriedIds(t.info) == TriedIds(s.info)
    requires forall k :: k in s.info && k in t.info ==> s.info[k].addr == t.info[k].addr
    requires t.nNew == s.nNew - 1 && t.nTried == s.nTried
    requires t.net == Bump(s.net, cfg.network(s.info[id].addr), -1, 0)
    ensures CountsOk(cfg, t, limbo')
  {
    var fewer := NewIds(t.info, limbo');
    assert NewIds(s.info, limbo) == fewer + {id};
    forall n
      ensures CountAt(t.net, n) == Counts(|On(cfg, t.info, fewer, n)|, |On(cfg, t.info, TriedIds(t.info), n)|)
    {
      OnSame(cfg, s.info, t.info, fewer, n);
      OnSame(cfg, s.info, t.info, TriedIds(s.info), n);
      OnAdd(cfg, s.info, fewer, id, n);
    }
  }

  lemma CountTried(cfg: Config, s: Man, t: Man, limbo: set<int>, limbo': set<int>, id: int)
    requires CountsOk(cfg, s, limbo)
    requires id in t.info && id !in TriedIds(s.info)
    requires TriedIds(t.info) == TriedIds(s.info) + {id}
    requires NewIds(t.info, limbo') == NewIds(s.info, limbo)
    requires s.info.Keys == t.info.Keys
    requires forall k :: k in s.info ==> s.info[k].addr == t.info[k].addr
    requires t.nTried == s.nTried + 1 && t.nNew == s.nNew
    requires t.net == Bump(s.net, cfg.network(t.info[id].addr), 0, 1)
    ensures CountsOk(cfg, t, limbo')
  {
    forall n
      ensures CountAt(t.net, n) ==
              Counts(|On(cfg, t.info, NewIds(t.info, limbo'), n)|, |On(cfg, t.info, TriedIds(t.info), n)|)
    {
      OnSame(cfg, s.info, t.info, NewIds(s.info, limbo), n);
      OnSame(cfg, s.info, t.info, TriedIds(s.info), n);
      OnAdd(cfg, t.info, TriedIds(s.info), id, n);
    }
  }

  lemma UncountTried(cfg: Config, s: Man, t: Man, limbo: set<int>, limbo': set<int>, id: int)
    requires CountsOk(cfg, s, limbo)
    requires id in s.info && id in TriedIds(s.info)
    requires TriedIds(t.info) == TriedIds(s.info) - {id}
    requires NewIds(t.info, limbo') == NewIds(s.info, limbo)
    requires s.info.Keys == t.info.Keys
    requires forall k :: k in s.info ==> s.info[k].addr == t.info[k].addr
    requires t.nTried == s.nTried - 1 && t.nNew == s.nNew
    requires t.net == Bump(s.net, cfg.network(s.info[id].addr), 0, -1)
    ensures CountsOk(cfg, t, limbo')
  {
    var fewer := TriedIds(t.info);
    assert TriedIds(s.info) == fewer + {id};
    forall n
      ensures CountAt(t.net, n) == Counts(|On(cfg, t.info, NewIds(t.info, limbo'), n)|, |On(cfg, t.info, fewer, n)|)
    {
      OnSame(cfg, s.info, t.info, NewIds(s.info, limbo), n);
      OnSame(cfg, s.info, t.info, fewer, n);
      OnAdd(cfg, s.info, fewer, id, n);
    }
  }

  // ---------- indexes that an update of the entries does not touch ----------

  lemma IndexStays(s: Man, t: Man)
    requires IndexOk(s) && s.addrs == t.addrs && s.idCount == t.idCount && s.info.Keys == t.info.Keys
    requires forall id :: id in s.info ==> t.info[id].addr == s.info[id].addr
    ensures IndexOk(t)
  {
  }

  lemma RandomStays(a: map<int, Info>, b: map<int, Info>, random: seq<int>)
    requires RandomOk(a, random) && a.Keys == b.Keys
    requires forall id :: id in a ==> b[id].randomPos == a[id].randomPos
    ensures RandomOk(b, random)
  {
  }

  lemma TriedStays(cfg: Config, a: map<int, Info>, b: map<int, Info>, tried: map<Slot, int>)
    requires TriedOk(cfg, a, tried) && a.Keys == b.Keys
    requires forall id :: id in a ==> b[id].addr == a[id].addr && b[id].inTried == a[id].inTried
    ensures TriedOk(cfg, b, tried)
  {
    forall t | t in tried
      ensures tried[t] in b && b[tried[t]].inTried && cfg.TriedSlot(b[tried[t]].addr) == t
    {
      var id := tried[t];
      assert a[id].inTried && b[id].addr == a[id].addr && b[id].inTried == a[id].inTried;
    }
  }

  lemma NewsStays(cfg: Config, a: map<int, Info>, b: map<int, Info>, news: map<Slot, int>)
    requires NewsOk(cfg, a, news) && a.Keys == b.Keys
    requires forall id :: id in a ==>
             b[id].addr == a[id].addr && b[id].inTried == a[id].inTried && b[id].refCount == a[id].refCount
    ensures NewsOk(cfg, b, news)
  {
    forall t | t in news
      ensures news[t] in b && !b[news[t]].inTried && AtHome(cfg, b[news[t]].addr, t)
    {
      var id := news[t];
      assert AtHome(cfg, a[id].addr, t) && b[id].addr == a[id].addr && b[id].inTried == a[id].inTried;
    }
  }

  /**
    What every operation does to slots and ids: a filled tried slot stays filled, an entry keeps
    its address, and an id that was not there is one never handed out before, for a routable address.
   */
  ghost predicate Grows(cfg: Config, s: Man, t: Man) {
    && s.tried.Keys <= t.tried.Keys
    && s.idCount <= t.idCount
    && (forall id :: id in t.info ==>
          if id in s.info then t.info[id].addr == s.info[id].addr else s.idCount <= id && cfg.routable(t.info[id].addr))
  }

  lemma GrowsTrans(cfg: Config, s: Man, t: Man, u: Man)
    requires Grows(cfg, s, t) && Grows(cfg, t, u)
    requires forall id :: id in s.info ==> id < s.idCount
    ensures Grows(cfg, s, u)
  {
    forall id | id in u.info
      ensures if id in s.info then u.info[id].addr == s.info[id].addr else s.idCount <= id && cfg.routable(u.info[id].addr)
    {
      if id in t.info { assert id in s.info ==> t.info[id].addr == s.info[id].addr; }
    }
  }

  lemma CollisionsKept(cfg: Config, s: Man, t: Man)
    requires CollisionsOk(cfg, s) && Grows(cfg, s, t) && t.collisions <= s.collisions
    ensures CollisionsOk(cfg, t)
  {
    Fewer(t.collisions, s.collisions);
  }

  lemma Fewer(a: set<int>, b: set<int>)
    requires a <= b
    ensures |a| <= |b|
  {
    assert b == a + (b - a);
  }

  // ---------- small updates ----------

  /** Rewriting the statistics of an entry disturbs no index. */
  lemma TouchKeeps(cfg: Config, s: Man, id: int, i: Info, loose: set<int>, limbo: set<int>)
    requires Inv(cfg, s, loose, limbo) && id in s.info
    requires i.addr == s.info[id].addr && i.inTried == s.info[id].inTried
    requires i.refCount == s.info[id].refCount && i.randomPos == s.info[id].randomPos
    requires EntryOk(i, id in loose)
    ensures Inv(cfg, SetInfo(s, id, i), loose, limbo)
  {
    hide IndexOk, RandomOk, TriedOk, NewsOk, CountsOk;
    var t := SetInfo(s, id, i);
    assert t.info.Keys == s.info.Keys;
    IndexStays(s, t);
    RandomStays(s.info, t.info, s.random);
    TriedStays(cfg, s.info, t.info, s.tried);
    NewsStays(cfg, s.info, t.info, s.news);
    CountsCongruent(cfg, s, t, limbo);
  }

  lemma RefsAdd(news: map<Slot, int>, t: Slot, id: int)
    requires t !in news
    ensures |Refs(news[t := id], id)| == |Refs(news, id)| + 1
    ensures forall k :: k != id ==> Refs(news[t := id], k) == Refs(news, k)
  {
    assert Refs(news[t := id], id) == Refs(news, id) + {t};
  }

  lemma RefsDrop(news: map<Slot, int>, t: Slot)
    requires t in news
    ensures |Refs(news - {t}, news[t])| == |Refs(news, news[t])| - 1
    ensures forall k :: k != news[t] ==> Refs(news - {t}, k) == Refs(news, k)
  {
    assert Refs(news - {t}, news[t]) == Refs(news, news[t]) - {t};
  }

  /** A change of one reference count, together with the table it counts. */
  lemma RecountKeeps(cfg: Config, s: Man, id: int, count: int, news: map<Slot, int>,
                     loose: set<int>, loose': set<int>, limbo: set<int>)
    requires Inv(cfg, s, loose, limbo) && id in s.info
    requires NewsOk(cfg, s.info[id := s.info[id].(refCount := count)], news)
    requires EntryOk(s.info[id].(refCount := count), id in loose') && loose <= loose' + {id}
    ensures Inv(cfg, SetInfo(s, id, s.info[id].(refCount := count)).(news := news), loose', limbo)
  {
    hide IndexOk, RandomOk, TriedOk, NewsOk, CountsOk;
    var t := SetInfo(s, id, s.info[id].(refCount := count)).(news := news);
    assert t.info.Keys == s.info.Keys;
    IndexStays(s, t);
    RandomStays(s.info, t.info, s.random);
    TriedStays(cfg, s.info, t.info, s.tried);
    CountsCongruent(cfg, s, t, limbo);
  }

  lemma AddRefKeeps(cfg: Config, s: Man, id: int, slot: Slot, loose: set<int>, limbo: set<int>)
    requires Inv(cfg, s, loose, limbo)
    requires id in s.info && !s.info[id].inTried && s.info[id].refCount < BUCKETS_PER_ADDRESS
    requires slot !in s.news && AtHome(cfg, s.info[id].addr, slot)
    ensures Inv(cfg, AddRef(s, id, slot), loose - {id}, limbo)
  {
    hide IndexOk, RandomOk, TriedOk, NewsOk, CountsOk;
    RefsAdd(s.news, slot, id);
    var count := s.info[id].refCount + 1;
    NewsAfterAdd(cfg, s.info, s.news, id, slot);
    RecountKeeps(cfg, s, id, count, s.news[slot := id], loose, loose - {id}, limbo);
  }

  lemma NewsAfterAdd(cfg: Config, info: map<int, Info>, news: map<Slot, int>, id: int, slot: Slot)
    requires NewsOk(cfg, info, news)
    requires id in info && !info[id].inTried && slot !in news && AtHome(cfg, info[id].addr, slot)
    ensures NewsOk(cfg, info[id := info[id].(refCount := info[id].refCount + 1)], news[slot := id])
  {
    RefsAdd(news, slot, id);
  }

  lemma NewsAfterDrop(cfg: Config, info: map<int, Info>, news: map<Slot, int>, slot: Slot)
    requires NewsOk(cfg, info, news) && slot in news
    ensures var id := news[slot];
            && info[id].refCount >= 1 && !info[id].inTried
                && NewsOk(cfg, info[id := info[id].(refCount := info[id].refCount - 1)], news - {slot})
  {
    assert slot in Refs(news, news[slot]);
    RefsDrop(news, slot);
  }

  lemma DropRefKeepsIn(cfg: Config, s: Man, slot: Slot, loose: set<int>, loose': set<int>, limbo: set<int>)
    requires Inv(cfg, s, loose, limbo)
    requires slot in s.news && s.news[slot] in s.info && loose <= loose'
    requires s.info[s.news[slot]].refCount >= 2 || s.news[slot] in loose'
    ensures Inv(cfg, DropRef(s, slot), loose', limbo)
  {
    hide IndexOk, RandomOk, TriedOk, NewsOk, CountsOk;
    var id := s.news[slot];
    NewsAfterDrop(cfg, s.info, s.news, slot);
    var count := s.info[id].refCount - 1;
    assert !s.info[id].inTried;
    RecountKeeps(cfg, s, id, count, s.news - {slot}, loose, loose', limbo);
  }

  lemma DropRefKeeps(cfg: Config, s: Man, slot: Slot, loose: set<int>, limbo: set<int>)
    requires Inv(cfg, s, loose, limbo)
    requires slot in s.news
    ensures s.news[slot] in s.info && s.info[s.news[slot]].refCount >= 1
    ensures Inv(cfg, DropRef(s, slot), loose + {s.news[slot]}, limbo)
    ensures s.info[s.news[slot]].refCount >= 2 ==> Inv(cfg, DropRef(s, slot), loose, limbo)
  {
    hide IndexOk, RandomOk, TriedOk, CountsOk;
    var id := s.news[slot];
    NewsAfterDrop(cfg, s.info, s.news, slot);
    DropRefKeepsIn(cfg, s, slot, loose, loose + {id}, limbo);
    if s.info[id].refCount >= 2 { DropRefKeepsIn(cfg, s, slot, loose, loose, limbo); }
  }

  lemma SwapKeeps(cfg: Config, s: Man, p: int, q: int, loose: set<int>, limbo: set<int>)
    requires Inv(cfg, s, loose, limbo)
    requires 0 <= p < |s.random| && 0 <= q < |s.random|
    ensures var t := SwapRandom(s, p, q);
            && Inv(cfg, t, loose, limbo)
            && |t.random| == |s.random| && t.random[q] == s.random[p]
            && t.info.Keys == s.info.Keys
            && forall id :: id in s.info ==> t.info[id] == s.info[id].(randomPos := t.info[id].randomPos)
  {
    hide IndexOk, RandomOk, TriedOk, NewsOk, CountsOk;
    if p != q {
      var t := SwapRandom(s, p, q);
      SwapRandomOk(s.info, s.random, p, q);
      assert s.random[p] in s.info && s.random[q] in s.info;
      assert t.info.Keys == s.info.Keys;
      IndexStays(s, t);
      TriedStays(cfg, s.info, t.info, s.tried);
      NewsStays(cfg, s.info, t.info, s.news);
      CountsCongruent(cfg, s, t, limbo);
      }
  }

  lemma SwapRandomOk(info: map<int, Info>, random: seq<int>, p: int, q: int)
    requires RandomOk(info, random) && 0 <= p < |random| && 0 <= q < |random| && p != q
    ensures random[p] != random[q] && random[p] in info && random[q] in info
    ensures var a, b := random[p], random[q];
            var info1 := info[a := info[a].(randomPos := q)];
            RandomOk(info1[b := info1[b].(randomPos := p)], random[p := b][q := a])
  {
  }

  lemma NewEntryOk(cfg: Config, info: map<int, Info>, random: seq<int>, tried: map<Slot, int>, news: map<Slot, int>,
      id: int, i: Info)
    requires RandomOk(info, random) && TriedOk(cfg, info, tried) && NewsOk(cfg, info, news)
    requires id !in info && !i.inTried && i.refCount == 0 && i.randomPos == |random|
    ensures RandomOk(info[id := i], random + [id]) && TriedOk(cfg, info[id := i], tried) && NewsOk(cfg, info[id := i], news)
  {
    assert Refs(news, id) == {};
  }

  /** A new entry without references, at the next free id. */
  function Insert(cfg: Config, s: Man, i: Info): Man {
    s.(idCount := s.idCount + 1,
       info := s.info[s.idCount := i],
       addrs := s.addrs[i.addr := s.idCount],
       random := s.random + [s.idCount],
       nNew := s.nNew + 1,
       net := Bump(s.net, cfg.network(i.addr), 1, 0))
  }

  lemma InsertKeeps(cfg: Config, s: Man, i: Info, loose: set<int>)
    requires Inv(cfg, s, loose, {}) && i.addr !in s.addrs
    requires !i.inTried && i.refCount == 0 && i.randomPos == |s.random| && EntryOk(i, true)
    ensures Inv(cfg, Insert(cfg, s, i), loose + {s.idCount}, {})
  {
    hide RandomOk, TriedOk, NewsOk, CountsOk;
    var t, id := Insert(cfg, s, i), s.idCount;
    assert id !in s.info;
    assert IndexOk(t);
    hide IndexOk;
    NewEntryOk(cfg, s.info, s.random, s.tried, s.news, id, i);
    JoinIds(s.info, t.info, id, {});
    CountNewIds(cfg, s, t, {}, {}, id);
  }

  lemma CreateKeeps(cfg: Config, s: Man, claim: Claim, source: Host)
    requires Inv(cfg, s, {}, {}) && claim.addr !in s.addrs
    ensures Inv(cfg, Create(cfg, s, claim, source), {s.idCount}, {})
  {
    hide IndexOk, RandomOk, TriedOk, NewsOk, CountsOk, EntriesOk, Inv;
    var i := Create(cfg, s, claim, source).info[s.idCount];
    InsertKeeps(cfg, s, i, {});
    assert {} + {s.idCount} == {s.idCount};
    assert Create(cfg, s, claim, source) == Insert(cfg, s, i);
  }

  lemma JoinIds(a: map<int, Info>, b: map<int, Info>, id: int, limbo: set<int>)
    requires id !in a && id in b && b == a[id := b[id]] && !b[id].inTried && id !in limbo
    ensures NewIds(b, limbo) == NewIds(a, limbo) + {id} && TriedIds(b) == TriedIds(a)
  {
  }

  lemma LeaveIds(a: map<int, Info>, id: int, limbo: set<int>)
    requires id in a && !a[id].inTried && id !in limbo
    ensures NewIds(a - {id}, limbo) == NewIds(a, limbo) - {id} && TriedIds(a - {id}) == TriedIds(a)
  {
  }

  lemma DeleteKeeps(cfg: Config, s: Man, id: int, loose: set<int>, limbo: set<int>)
    requires Inv(cfg, s, loose, limbo)
    requires id in s.info && !s.info[id].inTried && s.info[id].refCount == 0 && id !in limbo
    ensures s.random != [] && Inv(cfg, Delete(cfg, s, id), loose - {id}, limbo)
  {
    hide IndexOk, TriedOk, NewsOk, CountsOk;
    var last := |s.random| - 1;
    SwapKeeps(cfg, s, s.info[id].randomPos, last, loose, limbo);
    var s1 := SwapRandom(s, s.info[id].randomPos, last);
    RemoveLastKeeps(cfg, s1, id, loose, limbo);
  }

  /** The entry at the end of `vRandom` goes away. */
  lemma RemoveLastKeeps(cfg: Config, s: Man, id: int, loose: set<int>, limbo: set<int>)
    requires Inv(cfg, s, loose, limbo)
    requires id in s.info && !s.info[id].inTried && s.info[id].refCount == 0 && id !in limbo
    requires s.random != [] && s.random[|s.random| - 1] == id
    ensures var a := s.info[id].addr;
            Inv(cfg, s.(net := Bump(s.net, cfg.network(a), -1, 0), random := s.random[..|s.random| - 1],
                        addrs := s.addrs - {a}, info := s.info - {id}, nNew := s.nNew - 1), loose - {id}, limbo)
  {
    hide CountsOk, NewsOk;
    var a := s.info[id].addr;
    var t := s.(net := Bump(s.net, cfg.network(a), -1, 0), random := s.random[..|s.random| - 1],
                addrs := s.addrs - {a}, info := s.info - {id}, nNew := s.nNew - 1);
    assert IndexOk(t);
    assert RandomOk(t.info, t.random);
    assert TriedOk(cfg, t.info, t.tried);
    NewsWithout(cfg, s.info, s.news, id);
    LeaveIds(s.info, id, limbo);
    UncountNew(cfg, s, t, limbo, limbo, id);
  }

  lemma NewsWithout(cfg: Config, info: map<int, Info>, news: map<Slot, int>, id: int)
    requires NewsOk(cfg, info, news) && id in info && info[id].refCount == 0
    ensures NewsOk(cfg, info - {id}, news)
  {
    assert Refs(news, id) == {};
    assert forall t :: t in news ==> t in Refs(news, news[t]);
  }
}
