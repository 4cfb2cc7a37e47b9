/**
  Saving and loading the address manager (src/addrman.cpp:131-404): what the stream holds, entry
  by entry, and that loading a saved manager rebuilds it up to a renaming of ids.
 */
module AddrManDisk {

  import opened Collections
  import opened AddrManModel
  import opened AddrManInv
  import opened AddrManOps
  import C = AddrManCheck

  /** The fields of an entry that are written (src/addrman_impl.h:66-70). */
  datatype Record = Record(addr: Addr, source: Host, time: int, services: set<nat>, lastSuccess: int, attempts: int)

  /** The stream after its version bytes; `buckets[b]` lists indexes into `news`. */
  datatype Saved = Saved(news: seq<Record>, trieds: seq<Record>, buckets: seq<seq<int>>, asmap: nat)

  function ToRecord(i: Info): Record {
    Record(i.addr, i.source, i.time, i.services, i.lastSuccess, i.attempts)
  }

  function FromRecord(r: Record, randomPos: int): Info {
    Info(r.addr, r.source, r.time, r.services, 0, 0, r.lastSuccess, r.attempts, 0, false, randomPos)
  }

  // ---------- saving ----------

  /** The ids among the first `n` of `order` that `keep` accepts. */
  function Kept(order: seq<int>, keep: int -> bool, n: nat): seq<int>
    requires n <= |order|
  {
    if n == 0 then [] else Kept(order, keep, n - 1) + if keep(order[n - 1]) then [order[n - 1]] else []
  }

  /** The ids with references, in `order`, which is how the map happens to be iterated. */
  function NewOrder(s: Man, order: seq<int>, n: nat): seq<int>
    requires n <= |order|
  {
    Kept(order, id => id in s.info && s.info[id].refCount != 0, n)
  }

  function TriedOrder(s: Man, order: seq<int>, n: nat): seq<int>
    requires n <= |order|
  {
    Kept(order, id => id in s.info && s.info[id].inTried, n)
  }

  function Records(s: Man, ids: seq<int>): seq<Record> {
    seq(|ids|, k requires 0 <= k < |ids| => if ids[k] in s.info then ToRecord(s.info[ids[k]]) else ToRecord(BLANK))
  }

  /** `mapUnkIds`: where an id stands in the list of new entries. */
  function Unknown(s: Man, order: seq<int>, n: nat): map<int, int>
    requires n <= |order|
  {
    if n == 0 then map[] else Unknown(s, order, n - 1)[order[n - 1] := |NewOrder(s, order, n - 1)|]
  }

  /** The occupied slots of bucket `b` at positions below `n`. */
  function RowSlots(news: map<Slot, int>, b: nat, n: nat): seq<Slot> {
    if n == 0 then [] else RowSlots(news, b, n - 1) + if Slot(b, n - 1) in news then [Slot(b, n - 1)] else []
  }

  function Row(s: Man, unknown: map<int, int>, slots: seq<Slot>): seq<int> {
    seq(|slots|, k requires 0 <= k < |slots| =>
      if slots[k] in s.news && s.news[slots[k]] in unknown then unknown[s.news[slots[k]]] else 0)
  }

  function Serialize(cfg: Config, s: Man, order: seq<int>, asmap: nat): Saved {
    var unknown := Unknown(s, order, |order|);
    Saved(Records(s, NewOrder(s, order, |order|)),
          Records(s, TriedOrder(s, order, |order|)),
          seq(cfg.newBuckets, b requires 0 <= b < cfg.newBuckets => Row(s, unknown, RowSlots(s.news, b, cfg.bucketSize))),
          asmap)
  }

  // ---------- loading ----------

  function LoadNew(cfg: Config, s: Man, r: Record): Man {
    var id := |s.random|;
    s.(idCount := s.idCount + 1,
       info := s.info[id := FromRecord(r, id)],
       addrs := s.addrs[r.addr := id],
       random := s.random + [id],
       nNew := s.nNew + 1,
       net := Bump(s.net, cfg.network(r.addr), 1, 0))
  }

  function LoadNews(cfg: Config, rs: seq<Record>, n: nat): Man
    requires n <= |rs|
  {
    if n == 0 then EMPTY else LoadNew(cfg, LoadNews(cfg, rs, n - 1), rs[n - 1])
  }

  /** A tried record goes to its slot; it is lost if the address is invalid or the slot is taken. */
  function LoadTried(cfg: Config, s: Man, r: Record): Man {
    var slot := cfg.TriedSlot(r.addr);
    if !cfg.valid(r.addr) || slot in s.tried then s
    else
      var id := s.idCount;
      s.(idCount := id + 1,
         info := s.info[id := FromRecord(r, |s.random|).(inTried := true)],
         addrs := s.addrs[r.addr := id],
         random := s.random + [id],
         tried := s.tried[slot := id],
         nTried := s.nTried + 1,
         net := Bump(s.net, cfg.network(r.addr), 0, 1))
  }

  function LoadTrieds(cfg: Config, s: Man, rs: seq<Record>, n: nat): Man
    requires n <= |rs|
  {
    if n == 0 then s else LoadTried(cfg, LoadTrieds(cfg, s, rs, n - 1), rs[n - 1])
  }

  /** The pairs of bucket and entry index in one row; indexes out of range are skipped. */
  function RowPairs(row: seq<int>, b: nat, nNew: int, n: nat): seq<(nat, int)>
    requires n <= |row|
  {
    if n == 0 then [] else RowPairs(row, b, nNew, n - 1) + if 0 <= row[n - 1] < nNew then [(b, row[n - 1])] else []
  }

  function Pairs(buckets: seq<seq<int>>, nNew: int, n: nat): seq<(nat, int)>
    requires n <= |buckets|
  {
    if n == 0 then [] else Pairs(buckets, nNew, n - 1) + RowPairs(buckets[n - 1], n - 1, nNew, |buckets[n - 1]|)
  }

  /** One pair: the old place if bucketing has not changed and it is free, else the entry's own place if that is free. */
  function Restore(cfg: Config, s: Man, restoreBucketing: bool, pair: (nat, int)): Man {
    var id := pair.1;
    if id !in s.info || !cfg.valid(s.info[id].addr) || s.info[id].refCount >= BUCKETS_PER_ADDRESS then s
    else
      var slot := cfg.NewSlotIn(s.info[id].addr, pair.0);
      if restoreBucketing && slot !in s.news then AddRef(s, id, slot)
      else
        var home := cfg.NewSlot(s.info[id].addr, s.info[id].source);
        if home !in s.news then AddRef(s, id, home) else s
  }

  function RestoreAll(cfg: Config, s: Man, restoreBucketing: bool, pairs: seq<(nat, int)>, n: nat): Man
    requires n <= |pairs|
  {
    if n == 0 then s else Restore(cfg, RestoreAll(cfg, s, restoreBucketing, pairs, n - 1), restoreBucketing, pairs[n - 1])
  }

  /** Entries that got no reference are deleted. */
  function Prune(cfg: Config, s: Man, ids: seq<int>, n: nat): Man
    requires n <= |ids|
  {
    if n == 0 then s
    else
      var t := Prune(cfg, s, ids, n - 1);
      var id := ids[n - 1];
      if id in t.info && !t.info[id].inTried && t.info[id].refCount == 0 && t.random != [] then Delete(cfg, t, id) else t
  }

  /** `Unserialize`; nothing where it throws. `walk` is the order in which the entries are visited for pruning. */
  ghost function Unserialize(cfg: Config, saved: Saved, asmap: nat, walk: seq<int>): Option<Man> {
    if |saved.news| > cfg.newBuckets * cfg.bucketSize || |saved.trieds| > cfg.triedBuckets * cfg.bucketSize then None
    else
      var s1 := LoadNews(cfg, saved.news, |saved.news|);
      var s2 := LoadTrieds(cfg, s1, saved.trieds, |saved.trieds|);
      var restoreBucketing := |saved.buckets| == cfg.newBuckets && saved.asmap == asmap;
      var pairs := Pairs(saved.buckets, |saved.news|, |saved.buckets|);
      var s3 := RestoreAll(cfg, s2, restoreBucketing, pairs, |pairs|);
      var t := Prune(cfg, s3, walk, |walk|);
      if C.Checked(cfg, t) then Some(t) else None
  }

  // ---------- the order of the saved entries ----------

  predicate Distinct<T(==)>(s: seq<T>) {
    forall j, k :: 0 <= j < k < |s| ==> s[j] != s[k]
  }

  ghost predicate Enumerates(order: seq<int>, info: map<int, Info>) {
    Distinct(order) && forall id :: id in info <==> id in order
  }

  /** What is kept is distinct and accepted, and everything accepted stands where it was counted to stand. */
  lemma {:induction false} KeptOk(order: seq<int>, keep: int -> bool, n: nat)
    requires n <= |order| && Distinct(order)
    ensures var ids := Kept(order, keep, n);
            && Distinct(ids)
            && (forall k :: 0 <= k < |ids| ==> keep(ids[k]) && ids[k] in order[..n])
            && (forall j :: 0 <= j < n && keep(order[j]) ==>
                  |Kept(order, keep, j)| < |ids| && ids[|Kept(order, keep, j)|] == order[j])
  {
    if n > 0 {
      KeptOk(order, keep, n - 1);
      assert order[..n] == order[..n - 1] + [order[n - 1]];
      var fewer, ids := Kept(order, keep, n - 1), Kept(order, keep, n);
      forall j | 0 <= j < n && keep(order[j])
        ensures |Kept(order, keep, j)| < |ids| && ids[|Kept(order, keep, j)|] == order[j]
      {
        if j < n - 1 { assert ids[|Kept(order, keep, j)|] == fewer[|Kept(order, keep, j)|]; }
      }
    }
  }

  lemma {:induction false} UnknownOk(s: Man, order: seq<int>, n: nat)
    requires n <= |order| && Distinct(order)
    ensures forall j :: 0 <= j < n ==>
            order[j] in Unknown(s, order, n) && Unknown(s, order, n)[order[j]] == |NewOrder(s, order, j)|
  {
    if n > 0 { UnknownOk(s, order, n - 1); }
  }

  /** The saved new entries: each new id stands at the index under which buckets refer to it. */
  lemma NewOrderOk(cfg: Config, s: Man, order: seq<int>)
    requires Inv(cfg, s, {}, {}) && Enumerates(order, s.info)
    ensures var w := NewOrder(s, order, |order|);
            var unknown := Unknown(s, order, |order|);
            && Distinct(w)
            && (forall k :: 0 <= k < |w| ==> w[k] in s.info && !s.info[w[k]].inTried)
            && (forall id :: id in s.info && !s.info[id].inTried ==>
                  id in unknown && 0 <= unknown[id] < |w| && w[unknown[id]] == id)
  {
    hide IndexOk, RandomOk, TriedOk, NewsOk, CountsOk;
    var keep := id => id in s.info && s.info[id].refCount != 0;
    KeptOk(order, keep, |order|);
    UnknownOk(s, order, |order|);
    var w, unknown := NewOrder(s, order, |order|), Unknown(s, order, |order|);
    assert forall k :: 0 <= k < |w| ==> keep(w[k]);
    forall id | id in s.info && !s.info[id].inTried
      ensures id in unknown && 0 <= unknown[id] < |w| && w[unknown[id]] == id
    {
      assert EntryOk(s.info[id], false);
      var j :| 0 <= j < |order| && order[j] == id;
      assert keep(order[j]);
    }
  }

  lemma TriedOrderOk(s: Man, order: seq<int>)
    requires Enumerates(order, s.info)
    ensures var w := TriedOrder(s, order, |order|);
            && Distinct(w)
            && (forall k :: 0 <= k < |w| ==> w[k] in s.info && s.info[w[k]].inTried)
            && (forall id :: id in s.info && s.info[id].inTried ==> id in w)
  {
    var keep := id => id in s.info && s.info[id].inTried;
    KeptOk(order, keep, |order|);
    var w := TriedOrder(s, order, |order|);
    assert forall k :: 0 <= k < |w| ==> keep(w[k]);
    forall id | id in s.info && s.info[id].inTried ensures id in w {
      var j :| 0 <= j < |order| && order[j] == id;
      assert keep(order[j]);
    }
  }

  // ---------- loading the new entries ----------

  /** The manager after `n` new records: entry `k` is record `k`. */
  ghost predicate NewsLoaded(cfg: Config, t: Man, rs: seq<Record>, n: nat)
    requires n <= |rs|
  {
    && Inv(cfg, t, t.info.Keys, {})
    && t.idCount == |t.random| == t.nNew == n && t.nTried == 0
    && t.tried == map[] && t.news == map[] && t.collisions == {}
    && (forall id :: id in t.info <==> 0 <= id < n)
    && (forall k :: 0 <= k < n ==> t.info[k] == FromRecord(rs[k], k))
  }

  predicate AddrsDiffer(rs: seq<Record>) {
    forall j, k :: 0 <= j < k < |rs| ==> rs[j].addr != rs[k].addr
  }

  lemma LoadNewStep(cfg: Config, t: Man, rs: seq<Record>, n: nat)
    requires n < |rs| && NewsLoaded(cfg, t, rs, n) && AddrsDiffer(rs) && rs[n].lastSuccess >= 0
    ensures NewsLoaded(cfg, LoadNew(cfg, t, rs[n]), rs, n + 1)
  {
    assert rs[n].addr !in t.addrs by {
      hide RandomOk, TriedOk, NewsOk, CountsOk;
      assert forall k :: 0 <= k < n ==> t.info[k].addr == rs[k].addr && rs[k].addr != rs[n].addr;
      assert forall a :: a in t.addrs ==> 0 <= t.addrs[a] < n && t.info[t.addrs[a]].addr == a;
    }
    hide IndexOk, RandomOk, TriedOk, NewsOk, CountsOk, EntriesOk, Inv;
    var i := FromRecord(rs[n], n);
    InsertKeeps(cfg, t, i, t.info.Keys);
    assert LoadNew(cfg, t, rs[n]) == Insert(cfg, t, i);
    assert Insert(cfg, t, i).info.Keys == t.info.Keys + {n};
  }

  lemma EmptyInv(cfg: Config)
    ensures Inv(cfg, EMPTY, {}, {})
  {
    assert NewIds(EMPTY.info, {}) == {} && TriedIds(EMPTY.info) == {};
    assert forall n :: On(cfg, EMPTY.info, {}, n) == {};
  }

  lemma NothingLoaded(cfg: Config, rs: seq<Record>)
    ensures NewsLoaded(cfg, EMPTY, rs, 0)
  {
    EmptyInv(cfg);
    assert EMPTY.info.Keys == {};
    hide Inv;
  }

  lemma {:induction false} LoadNewsOk(cfg: Config, rs: seq<Record>, n: nat)
    requires n <= |rs| && AddrsDiffer(rs) && forall k :: 0 <= k < |rs| ==> rs[k].lastSuccess >= 0
    ensures NewsLoaded(cfg, LoadNews(cfg, rs, n), rs, n)
  {
    if n == 0 {
      NothingLoaded(cfg, rs);
    } else {
      hide NewsLoaded, LoadNew;
      LoadNewsOk(cfg, rs, n - 1);
      LoadNewStep(cfg, LoadNews(cfg, rs, n - 1), rs, n - 1);
    }
  }

  // ---------- loading the tried entries ----------

  function InsertTried(cfg: Config, s: Man, i: Info): Man {
    s.(idCount := s.idCount + 1,
       info := s.info[s.idCount := i],
       addrs := s.addrs[i.addr := s.idCount],
       random := s.random + [s.idCount],
       tried := s.tried[cfg.TriedSlot(i.addr) := s.idCount],
       nTried := s.nTried + 1,
       net := Bump(s.net, cfg.network(i.addr), 0, 1))
  }

  /** A tried entry at the next free id, in a free slot. */
  lemma InsertTriedKeeps(cfg: Config, s: Man, i: Info, loose: set<int>)
    requires Inv(cfg, s, loose, {}) && i.addr !in s.addrs && cfg.TriedSlot(i.addr) !in s.tried
    requires i.inTried && i.refCount == 0 && i.randomPos == |s.random| && EntryOk(i, false)
    requires forall id :: id in loose ==> id < s.idCount
    ensures Inv(cfg, InsertTried(cfg, s, i), loose, {})
  {
    hide CountsOk;
    var t, id := InsertTried(cfg, s, i), s.idCount;
    assert id !in s.info;
    assert IndexOk(t);
    hide IndexOk;
    assert EntriesOk(t.info, loose);
    hide EntriesOk;
    TriedEntryOk(cfg, s.info, s.random, s.tried, s.news, id, i);
    hide RandomOk, TriedOk, NewsOk;
    JoinTriedIds(s.info, id, i);
    CountTriedEntry(cfg, s, t, id);
  }

  lemma TriedEntryOk(cfg: Config, info: map<int, Info>, random: seq<int>, tried: map<Slot, int>, news: map<Slot, int>,
      id: int, i: Info)
    requires RandomOk(info, random) && TriedOk(cfg, info, tried) && NewsOk(cfg, info, news)
    requires id !in info && i.inTried && i.refCount == 0 && i.randomPos == |random| && cfg.TriedSlot(i.addr) !in tried
    ensures RandomOk(info[id := i], random + [id]) && TriedOk(cfg, info[id := i], tried[cfg.TriedSlot(i.addr) := id])
    ensures NewsOk(cfg, info[id := i], news)
  {
    assert Refs(news, id) == {};
  }

  lemma JoinTriedIds(info: map<int, Info>, id: int, i: Info)
    requires id !in info && i.inTried
    ensures NewIds(info[id := i], {}) == NewIds(info, {}) && TriedIds(info[id := i]) == TriedIds(info) + {id}
  {
  }

  lemma CountTriedEntry(cfg: Config, s: Man, t: Man, id: int)
    requires CountsOk(cfg, s, {}) && id in t.info && id !in s.info && t.info == s.info[id := t.info[id]]
    requires TriedIds(t.info) == TriedIds(s.info) + {id} && NewIds(t.info, {}) == NewIds(s.info, {})
    requires t.nTried == s.nTried + 1 && t.nNew == s.nNew
    requires t.net == Bump(s.net, cfg.network(t.info[id].addr), 0, 1)
    ensures CountsOk(cfg, t, {})
  {
    forall n
      ensures CountAt(t.net, n) ==
              Counts(|On(cfg, t.info, NewIds(t.info, {}), n)|, |On(cfg, t.info, TriedIds(t.info), n)|)
    {
      OnSame(cfg, s.info, t.info, NewIds(s.info, {}), n);
      OnSame(cfg, s.info, t.info, TriedIds(s.info), n);
      OnAdd(cfg, t.info, TriedIds(s.info), id, n);
    }
  }

  /** The manager after all new records `rs` and the first `n` tried records `ts`. */
  ghost predicate TriedsLoaded(cfg: Config, t: Man, rs: seq<Record>, ts: seq<Record>, n: nat)
    requires n <= |ts|
  {
    && Inv(cfg, t, Indexes(|rs|), {})
    && t.idCount == |t.random| == |rs| + n && t.nNew == |rs| && t.nTried == n
    && t.news == map[] && t.collisions == {}
    && (forall id :: id in t.info <==> 0 <= id < |rs| + n)
    && (forall k :: 0 <= k < |rs| ==> t.info[k] == FromRecord(rs[k], k))
    && (forall k :: 0 <= k < n ==> t.info[|rs| + k] == FromRecord(ts[k], |rs| + k).(inTried := true))
  }

  function Indexes(n: nat): (r: set<int>)
    ensures forall k :: k in r <==> 0 <= k < n
  {
    if n == 0 then {} else Indexes(n - 1) + {n - 1}
  }

  /** Records that can all be tried at once: known good, valid, and each with a slot of its own. */
  predicate Loadable(cfg: Config, rs: seq<Record>, ts: seq<Record>) {
    && AddrsDiffer(rs) && AddrsDiffer(ts)
    && (forall j, k :: 0 <= j < |rs| && 0 <= k < |ts| ==> rs[j].addr != ts[k].addr)
    && (forall k :: 0 <= k < |rs| ==> rs[k].lastSuccess >= 0)
    && (forall k :: 0 <= k < |ts| ==> ts[k].lastSuccess > 0 && cfg.valid(ts[k].addr))
    && (forall j, k :: 0 <= j < k < |ts| ==> cfg.TriedSlot(ts[j].addr) != cfg.TriedSlot(ts[k].addr))
  }

  /** Neither the address nor the slot of the next tried record is in use. */
  lemma NextTriedFree(cfg: Config, t: Man, rs: seq<Record>, ts: seq<Record>, n: nat)
    requires n < |ts| && TriedsLoaded(cfg, t, rs, ts, n) && Loadable(cfg, rs, ts)
    ensures ts[n].addr !in t.addrs && cfg.TriedSlot(ts[n].addr) !in t.tried
  {
    hide RandomOk, NewsOk, CountsOk, EntriesOk;
    assert forall k :: 0 <= k < |rs| ==> t.info[k].addr == rs[k].addr && !t.info[k].inTried;
    forall id | id in t.info
      ensures t.info[id].addr != ts[n].addr
              && (t.info[id].inTried ==> cfg.TriedSlot(t.info[id].addr) != cfg.TriedSlot(ts[n].addr))
    {
      if id >= |rs| {
        var k := id - |rs|;
        assert t.info[|rs| + k].addr == ts[k].addr && ts[k].addr != ts[n].addr;
      }
    }
  }

  lemma LoadTriedStep(cfg: Config, t: Man, rs: seq<Record>, ts: seq<Record>, n: nat)
    requires n < |ts| && TriedsLoaded(cfg, t, rs, ts, n) && Loadable(cfg, rs, ts)
    ensures TriedsLoaded(cfg, LoadTried(cfg, t, ts[n]), rs, ts, n + 1)
  {
    NextTriedFree(cfg, t, rs, ts, n);
    hide IndexOk, RandomOk, TriedOk, NewsOk, CountsOk, EntriesOk, Inv, AddrsDiffer;
    var i := FromRecord(ts[n], |rs| + n).(inTried := true);
    InsertTriedKeeps(cfg, t, i, Indexes(|rs|));
    LoadTriedIs(cfg, t, ts[n]);
    hide LoadTried;
    TriedLoaded(cfg, t, rs, ts, n);
  }

  lemma LoadTriedIs(cfg: Config, t: Man, r: Record)
    requires cfg.valid(r.addr) && cfg.TriedSlot(r.addr) !in t.tried
    ensures LoadTried(cfg, t, r) == InsertTried(cfg, t, FromRecord(r, |t.random|).(inTried := true))
  {
  }

  lemma TriedLoaded(cfg: Config, t: Man, rs: seq<Record>, ts: seq<Record>, n: nat)
    requires n < |ts| && TriedsLoaded(cfg, t, rs, ts, n)
    requires Inv(cfg, InsertTried(cfg, t, FromRecord(ts[n], |rs| + n).(inTried := true)), Indexes(|rs|), {})
    ensures TriedsLoaded(cfg, InsertTried(cfg, t, FromRecord(ts[n], |rs| + n).(inTried := true)), rs, ts, n + 1)
  {
    hide Inv, Bump;
  }

  lemma NoTriedsYet(cfg: Config, rs: seq<Record>, ts: seq<Record>)
    requires Loadable(cfg, rs, ts)
    ensures TriedsLoaded(cfg, LoadNews(cfg, rs, |rs|), rs, ts, 0)
  {
    LoadNewsOk(cfg, rs, |rs|);
    hide IndexOk, RandomOk, TriedOk, NewsOk, CountsOk, EntriesOk, Inv, LoadNews;
    assert LoadNews(cfg, rs, |rs|).info.Keys == Indexes(|rs|);
  }

  lemma {:induction false} LoadTriedsOk(cfg: Config, rs: seq<Record>, ts: seq<Record>, n: nat)
    requires n <= |ts| && Loadable(cfg, rs, ts)
    ensures TriedsLoaded(cfg, LoadTrieds(cfg, LoadNews(cfg, rs, |rs|), ts, n), rs, ts, n)
  {
    hide TriedsLoaded, Loadable, LoadNews, LoadTried;
    if n == 0 {
      NoTriedsYet(cfg, rs, ts);
    } else {
      LoadTriedsOk(cfg, rs, ts, n - 1);
      LoadTriedStep(cfg, LoadTrieds(cfg, LoadNews(cfg, rs, |rs|), ts, n - 1), rs, ts, n - 1);
    }
  }

  // ---------- the buckets ----------

  /** The occupied slots of the first `n` buckets, in the order in which they are written. */
  function AllSlots(cfg: Config, news: map<Slot, int>, n: nat): seq<Slot> {
    if n == 0 then [] else AllSlots(cfg, news, n - 1) + RowSlots(news, n - 1, cfg.bucketSize)
  }

  lemma {:induction false} RowSlotsOk(news: map<Slot, int>, b: nat, n: nat)
    ensures var row := RowSlots(news, b, n);
            && Distinct(row)
            && (forall k :: 0 <= k < |row| ==> row[k] in news && row[k].bucket == b && row[k].pos < n)
            && (forall t :: t in news && t.bucket == b && t.pos < n ==> t in row)
  {
    if n > 0 { RowSlotsOk(news, b, n - 1); }
  }

  /** Every occupied slot is written, once. */
  lemma {:induction false} AllSlotsOk(cfg: Config, news: map<Slot, int>, n: nat)
    requires forall t :: t in news ==> t.pos < cfg.bucketSize
    ensures var slots := AllSlots(cfg, news, n);
            && Distinct(slots)
            && (forall k :: 0 <= k < |slots| ==> slots[k] in news && slots[k].bucket < n)
            && (forall t :: t in news && t.bucket < n ==> t in slots)
  {
    if n > 0 {
      AllSlotsOk(cfg, news, n - 1);
      RowSlotsOk(news, n - 1, cfg.bucketSize);
    }
  }

  function PairsOf(s: Man, unknown: map<int, int>, slots: seq<Slot>): seq<(nat, int)> {
    seq(|slots|, k requires 0 <= k < |slots| => (slots[k].bucket, Row(s, unknown, slots)[k]))
  }

  /** What is read back from a row is one pair per written slot: no index is out of range. */
  lemma {:induction false} RowPairsOk(s: Man, unknown: map<int, int>, slots: seq<Slot>, b: nat, nNew: int, n: nat)
    requires n <= |slots| && forall k :: 0 <= k < |slots| ==>
               slots[k].bucket == b && slots[k] in s.news && s.news[slots[k]] in unknown
                   && 0 <= unknown[s.news[slots[k]]] < nNew
    ensures RowPairs(Row(s, unknown, slots), b, nNew, n) == PairsOf(s, unknown, slots)[..n]
  {
    if n > 0 { RowPairsOk(s, unknown, slots, b, nNew, n - 1); }
  }

  lemma PairsOfConcat(s: Man, unknown: map<int, int>, a: seq<Slot>, b: seq<Slot>)
    ensures PairsOf(s, unknown, a + b) == PairsOf(s, unknown, a) + PairsOf(s, unknown, b)
  {
  }

  lemma {:induction false} PairsOk(cfg: Config, s: Man, order: seq<int>, asmap: nat, nNew: int, n: nat)
    requires n <= cfg.newBuckets && (forall t :: t in s.news ==> t.pos < cfg.bucketSize)
    requires var unknown := Unknown(s, order, |order|);
             forall t :: t in s.news ==> s.news[t] in unknown && 0 <= unknown[s.news[t]] < nNew
    ensures Pairs(Serialize(cfg, s, order, asmap).buckets, nNew, n) ==
            PairsOf(s, Unknown(s, order, |order|), AllSlots(cfg, s.news, n))
  {
    hide Unknown;
    var unknown := Unknown(s, order, |order|);
    if n > 0 {
      PairsOk(cfg, s, order, asmap, nNew, n - 1);
      var row := RowSlots(s.news, n - 1, cfg.bucketSize);
      RowSlotsOk(s.news, n - 1, cfg.bucketSize);
      RowPairsOk(s, unknown, row, n - 1, nNew, |row|);
      assert PairsOf(s, unknown, row)[..|row|] == PairsOf(s, unknown, row);
      PairsOfConcat(s, unknown, AllSlots(cfg, s.news, n - 1), row);
    }
  }

  // ---------- putting the references back ----------

  /** After the first `n` slots: exactly those are filled, each by the entry that stands for its old holder. */
  ghost predicate Restored(cfg: Config, s: Man, t: Man, w: seq<int>, slots: seq<Slot>, n: nat)
    requires n <= |slots|
  {
    && Inv(cfg, t, Indexes(|w|), {})
    && (forall k :: 0 <= k < n ==> slots[k] in t.news)
    && (forall u :: u in t.news ==> u in slots[..n])
    && (forall u :: u in t.news ==> u in s.news && 0 <= t.news[u] < |w| && w[t.news[u]] == s.news[u])
  }

  /** Loaded entry `k` has the address of old entry `w[k]`, and is in the same table. */
  ghost predicate Stands(s: Man, t: Man, w: seq<int>) {
    forall k :: 0 <= k < |w| ==>
      && k in t.info && w[k] in s.info && t.info[k].addr == s.info[w[k]].addr && !t.info[k].inTried
  }

  /** A slot not yet restored leaves its entry below the limit of references. */
  lemma RoomLeft(cfg: Config, s: Man, t: Man, w: seq<int>, u: Slot, k: int)
    requires Inv(cfg, s, {}, {}) && NewsOk(cfg, t.info, t.news) && Distinct(w)
    requires 0 <= k < |w| && k in t.info && w[k] in s.info && u in s.news && s.news[u] == w[k] && u !in t.news
    requires forall v :: v in t.news ==> v in s.news && 0 <= t.news[v] < |w| && w[t.news[v]] == s.news[v]
    ensures t.info[k].refCount < BUCKETS_PER_ADDRESS
  {
    hide IndexOk, RandomOk, TriedOk, CountsOk;
    var mine, theirs := Refs(t.news, k), Refs(s.news, w[k]);
    assert mine + {u} <= theirs;
    C.SubsetSize(mine + {u}, theirs);
    assert EntryOk(s.info[w[k]], false);
  }

  lemma InvNews(cfg: Config, s: Man, loose: set<int>, u: Slot)
    requires Inv(cfg, s, loose, {})
    ensures NewsOk(cfg, s.info, s.news)
    ensures u in s.news ==> s.news[u] in s.info && AtHome(cfg, s.info[s.news[u]].addr, u)
  {
    hide IndexOk, RandomOk, TriedOk, CountsOk, EntriesOk;
  }

  /** The slot is free and its entry has room, so the reference goes exactly there. */
  lemma RestoreAddsRef(cfg: Config, s: Man, t: Man, w: seq<int>, slots: seq<Slot>, n: nat, k: int)
    requires Inv(cfg, s, {}, {}) && Distinct(w) && Distinct(slots) && n < |slots|
    requires Restored(cfg, s, t, w, slots, n) && Stands(s, t, w)
    requires slots[n] in s.news && 0 <= k < |w| && w[k] == s.news[slots[n]] && cfg.valid(s.info[w[k]].addr)
    ensures var u := slots[n];
            k in t.info && u !in t.news && !t.info[k].inTried && AtHome(cfg, t.info[k].addr, u)
            && t.info[k].refCount < BUCKETS_PER_ADDRESS && Restore(cfg, t, true, (u.bucket, k)) == AddRef(t, k, u)
  {
    hide IndexOk, RandomOk, TriedOk, NewsOk, CountsOk, EntriesOk, Inv;
    var u := slots[n];
    assert u !in t.news by { assert u !in slots[..n]; }
    hide Distinct;
    InvNews(cfg, s, {}, u);
    InvNews(cfg, t, Indexes(|w|), u);
    RoomLeft(cfg, s, t, w, u, k);
  }

  lemma RestoreStep(cfg: Config, s: Man, t: Man, w: seq<int>, slots: seq<Slot>, n: nat, k: int)
    requires Inv(cfg, s, {}, {}) && Distinct(w) && Distinct(slots) && n < |slots|
    requires Restored(cfg, s, t, w, slots, n) && Stands(s, t, w)
    requires slots[n] in s.news && 0 <= k < |w| && w[k] == s.news[slots[n]] && cfg.valid(s.info[w[k]].addr)
    ensures k in t.info && Restore(cfg, t, true, (slots[n].bucket, k)) == AddRef(t, k, slots[n])
    ensures Restored(cfg, s, AddRef(t, k, slots[n]), w, slots, n + 1) && Stands(s, AddRef(t, k, slots[n]), w)
  {
    hide IndexOk, RandomOk, TriedOk, NewsOk, CountsOk, EntriesOk, Inv, Distinct, Restore;
    RestoreAddsRef(cfg, s, t, w, slots, n, k);
    AddRefKeeps(cfg, t, k, slots[n], Indexes(|w|), {});
    LooserInv(cfg, AddRef(t, k, slots[n]), Indexes(|w|) - {k}, Indexes(|w|));
    NowRestored(s, t, w, slots, n, k);
  }

  /** The table part of one step. */
  lemma NowRestored(s: Man, t: Man, w: seq<int>, slots: seq<Slot>, n: nat, k: int)
    requires n < |slots| && 0 <= k < |w| && k in t.info && slots[n] in s.news && w[k] == s.news[slots[n]]
    requires forall j :: 0 <= j < n ==> slots[j] in t.news
    requires forall u :: u in t.news ==> u in slots[..n]
    requires forall u :: u in t.news ==> u in s.news && 0 <= t.news[u] < |w| && w[t.news[u]] == s.news[u]
    ensures var t' := AddRef(t, k, slots[n]);
            && (forall j :: 0 <= j < n + 1 ==> slots[j] in t'.news)
            && (forall u :: u in t'.news ==> u in slots[..n + 1])
            && (forall u :: u in t'.news ==> u in s.news && 0 <= t'.news[u] < |w| && w[t'.news[u]] == s.news[u])
  {
    assert slots[..n + 1] == slots[..n] + [slots[n]];
  }

  lemma LooserInv(cfg: Config, t: Man, loose: set<int>, loose': set<int>)
    requires Inv(cfg, t, loose, {}) && loose <= loose'
    ensures Inv(cfg, t, loose', {})
  {
    hide IndexOk, RandomOk, TriedOk, NewsOk, CountsOk;
  }

  /** Only reference counts and the new table differ. */
  ghost predicate OnlyRefs(s: Man, t: Man) {
    && t == s.(info := t.info, news := t.news)
    && t.info.Keys == s.info.Keys
    && forall k :: k in s.info ==> t.info[k] == s.info[k].(refCount := t.info[k].refCount)
  }

  lemma RestoreFrame(cfg: Config, s: Man, restoreBucketing: bool, pair: (nat, int))
    ensures OnlyRefs(s, Restore(cfg, s, restoreBucketing, pair))
  {
  }

  lemma {:induction false} RestoreAllFrame(cfg: Config, s: Man, restoreBucketing: bool, pairs: seq<(nat, int)>, n: nat)
    requires n <= |pairs|
    ensures OnlyRefs(s, RestoreAll(cfg, s, restoreBucketing, pairs, n))
  {
    if n > 0 {
      hide Restore;
      RestoreAllFrame(cfg, s, restoreBucketing, pairs, n - 1);
      RestoreFrame(cfg, RestoreAll(cfg, s, restoreBucketing, pairs, n - 1), restoreBucketing, pairs[n - 1]);
    }
  }

  /** Each new id stands at the index under which its slots refer to it. */
  ghost predicate Numbered(cfg: Config, s: Man, w: seq<int>, unknown: map<int, int>) {
    forall u :: u in s.news ==>
      && s.news[u] in s.info && cfg.valid(s.info[s.news[u]].addr)
      && s.news[u] in unknown && 0 <= unknown[s.news[u]] < |w| && w[unknown[s.news[u]]] == s.news[u]
  }

  lemma {:induction false} RestoreAllOk(cfg: Config, s: Man, t0: Man, w: seq<int>, slots: seq<Slot>,
                                        unknown: map<int, int>, n: nat)
    requires Inv(cfg, s, {}, {}) && Distinct(w) && Distinct(slots) && n <= |slots|
    requires Restored(cfg, s, t0, w, slots, 0) && Stands(s, t0, w) && Numbered(cfg, s, w, unknown)
    requires forall k :: 0 <= k < |slots| ==> slots[k] in s.news
    ensures var t := RestoreAll(cfg, t0, true, PairsOf(s, unknown, slots), n);
            Restored(cfg, s, t, w, slots, n) && Stands(s, t, w)
  {
    hide Inv, Restored, Stands, Restore, Distinct;
    if n > 0 {
      RestoreAllOk(cfg, s, t0, w, slots, unknown, n - 1);
      var u := slots[n - 1];
      assert u in s.news;
      var t := RestoreAll(cfg, t0, true, PairsOf(s, unknown, slots), n - 1);
      RestoreStep(cfg, s, t, w, slots, n - 1, unknown[s.news[u]]);
    }
  }
}
