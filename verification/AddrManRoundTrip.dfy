/** Loading what was saved gives the address manager back, up to a renaming of ids. */
module AddrManRoundTrip {

  import opened Collections
  import opened AddrManModel
  import opened AddrManInv
  import opened AddrManOps
  import opened AddrManDisk
  import C = AddrManCheck
  import R = AddrManRuns

  // ---------- the tables hold what the stream announces ----------

  lemma {:induction false} RowSize(row: set<Slot>, b: nat, cols: nat)
    requires forall t :: t in row ==> t.bucket == b && t.pos < cols
    ensures |row| <= cols
  {
    if cols == 0 {
      assert row == {};
    } else {
      var rest := row - {Slot(b, cols - 1)};
      RowSize(rest, b, cols - 1);
      assert row <= rest + {Slot(b, cols - 1)};
      C.SubsetSize(row, rest + {Slot(b, cols - 1)});
    }
  }

  lemma {:induction false} GridSize(slots: set<Slot>, rows: nat, cols: nat)
    requires forall t :: t in slots ==> t.bucket < rows && t.pos < cols
    ensures |slots| <= rows * cols
  {
    if rows == 0 {
      assert slots == {};
    } else {
      var last := set t | t in slots && t.bucket == rows - 1;
      RowSize(last, rows - 1, cols);
      GridSize(slots - last, rows - 1, cols);
      assert slots == (slots - last) + last;
      assert (rows - 1) * cols + cols == rows * cols;
    }
  }

  /** Distinct ids that all sit in a table sit in as many slots. */
  lemma {:induction false} SlotsOf(table: map<Slot, int>, w: seq<int>, n: nat) returns (slots: set<Slot>)
    requires n <= |w| && Distinct(w) && forall k :: 0 <= k < |w| ==> Refs(table, w[k]) != {}
    ensures |slots| == n && forall t :: t in slots ==> t in table && table[t] in w[..n]
  {
    if n == 0 {
      slots := {};
    } else {
      var fewer := SlotsOf(table, w, n - 1);
      var t :| t in Refs(table, w[n - 1]);
      assert t !in fewer by {
        assert w[n - 1] !in w[..n - 1];
      }
      slots := fewer + {t};
      assert w[..n] == w[..n - 1] + [w[n - 1]];
    }
  }

  lemma NewsFit(cfg: Config, s: Man, w: seq<int>)
    requires cfg.Ok() && Inv(cfg, s, {}, {}) && Distinct(w)
    requires forall k :: 0 <= k < |w| ==> w[k] in s.info && !s.info[w[k]].inTried
    ensures |w| <= cfg.newBuckets * cfg.bucketSize
  {
    hide IndexOk, RandomOk, TriedOk, CountsOk;
    assert EntriesOk(s.info, {});
    forall k | 0 <= k < |w| ensures Refs(s.news, w[k]) != {} {
      var id := w[k];
      assert id in s.info && !s.info[id].inTried;
      assert EntryOk(s.info[id], id in {});
      assert s.info[w[k]].refCount == |Refs(s.news, w[k])|;
    }
    var slots := SlotsOf(s.news, w, |w|);
    GridSize(slots, cfg.newBuckets, cfg.bucketSize);
  }

  lemma TriedsFit(cfg: Config, s: Man, w: seq<int>)
    requires cfg.Ok() && Inv(cfg, s, {}, {}) && Distinct(w)
    requires forall k :: 0 <= k < |w| ==> w[k] in s.info && s.info[w[k]].inTried
    ensures |w| <= cfg.triedBuckets * cfg.bucketSize
  {
    hide IndexOk, RandomOk, NewsOk, EntriesOk, CountsOk;
    forall k | 0 <= k < |w| ensures Refs(s.tried, w[k]) != {} {
      assert cfg.TriedSlot(s.info[w[k]].addr) in Refs(s.tried, w[k]);
    }
    var slots := SlotsOf(s.tried, w, |w|);
    GridSize(slots, cfg.triedBuckets, cfg.bucketSize);
  }

  // ---------- the round trip ----------

  /** Nothing that is saved is lost: `who[k]` is the old id of loaded entry `k`. */
  ghost predicate SameUpToIds(s: Man, t: Man, who: seq<int>) {
    && Distinct(who)
    && (forall id :: id in s.info <==> id in who)
    && (forall k :: k in t.info <==> 0 <= k < |who|)
    && (forall k :: 0 <= k < |who| ==> SameEntry(s, t, who[k], k))
    && SameTable(s.news, t.news, who)
    && SameTable(s.tried, t.tried, who)
    && t.nNew == s.nNew && t.nTried == s.nTried
  }

  ghost predicate SameEntry(s: Man, t: Man, id: int, k: int) {
    && id in s.info && k in t.info
    && ToRecord(t.info[k]) == ToRecord(s.info[id])
    && t.info[k].refCount == s.info[id].refCount
    && t.info[k].inTried == s.info[id].inTried
  }

  ghost predicate SameTable(a: map<Slot, int>, b: map<Slot, int>, who: seq<int>) {
    && (forall u :: u in a <==> u in b)
    && (forall u :: u in a && u in b ==> 0 <= b[u] < |who| && who[b[u]] == a[u])
  }

  /** Saved and loaded, the entries are loadable: the invariant keeps addresses and tried slots apart. */
  lemma SavedLoadable(cfg: Config, s: Man, w: seq<int>, v: seq<int>)
    requires Inv(cfg, s, {}, {}) && Distinct(w) && Distinct(v)
    requires forall k :: 0 <= k < |w| ==> w[k] in s.info && !s.info[w[k]].inTried
    requires forall k :: 0 <= k < |v| ==> v[k] in s.info && s.info[v[k]].inTried
    requires forall id :: id in s.info ==> cfg.valid(s.info[id].addr)
    ensures Loadable(cfg, Records(s, w), Records(s, v))
  {
    hide RandomOk, NewsOk, CountsOk;
    assert forall id, id' :: id in s.info && id' in s.info && s.info[id].addr == s.info[id'].addr ==> id == id';
    assert forall id :: id in s.info && s.info[id].inTried ==> s.tried[cfg.TriedSlot(s.info[id].addr)] == id;
    assert EntriesOk(s.info, {});
    hide Inv, IndexOk, TriedOk;
    forall k | 0 <= k < |w| ensures s.info[w[k]].lastSuccess >= 0 {
      var id := w[k];
      assert EntryOk(s.info[id], id in {});
    }
    forall k | 0 <= k < |v| ensures s.info[v[k]].lastSuccess > 0 {
      var id := v[k];
      assert EntryOk(s.info[id], id in {});
    }
  }

  /** `w` lists the new ids and `v` the tried ones. */
  ghost predicate Lists(s: Man, w: seq<int>, v: seq<int>) {
    && Distinct(w) && Distinct(v)
    && (forall k :: 0 <= k < |w| ==> w[k] in s.info && !s.info[w[k]].inTried)
    && (forall k :: 0 <= k < |v| ==> v[k] in s.info && s.info[v[k]].inTried)
    && (forall id :: id in s.info && !s.info[id].inTried ==> id in w)
    && (forall id :: id in s.info && s.info[id].inTried ==> id in v)
  }

  lemma LoadedStands(cfg: Config, s: Man, t: Man, w: seq<int>, v: seq<int>, slots: seq<Slot>)
    requires Lists(s, w, v) && TriedsLoaded(cfg, t, Records(s, w), Records(s, v), |v|)
    ensures Restored(cfg, s, t, w, slots, 0) && Stands(s, t, w)
  {
    hide Inv, Distinct;
  }

  /** With every slot back, the new tables agree. */
  lemma NewsBack(cfg: Config, s: Man, t: Man, w: seq<int>, v: seq<int>, slots: seq<Slot>)
    requires Restored(cfg, s, t, w, slots, |slots|) && (forall u :: u in s.news ==> u in slots)
    ensures SameTable(s.news, t.news, w + v)
  {
    hide Inv;
    forall u | u in s.news ensures u in t.news {
      var k :| 0 <= k < |slots| && slots[k] == u;
    }
  }

  lemma RefsBack(s: Man, t: Man, w: seq<int>, v: seq<int>, k: int)
    requires Distinct(w) && 0 <= k < |w| && SameTable(s.news, t.news, w + v)
    requires forall u :: u in t.news ==> 0 <= t.news[u] < |w|
    ensures Refs(t.news, k) == Refs(s.news, w[k])
  {
    forall u ensures u in Refs(t.news, k) <==> u in Refs(s.news, w[k]) {
      if u in s.news && u in t.news { assert w[t.news[u]] == s.news[u]; }
    }
  }

  /** So every entry has its old number of references, and none is loose. */
  lemma CountsBack(cfg: Config, s: Man, t: Man, w: seq<int>, v: seq<int>, slots: seq<Slot>)
    requires Inv(cfg, s, {}, {}) && Lists(s, w, v) && Stands(s, t, w)
    requires Restored(cfg, s, t, w, slots, |slots|) && SameTable(s.news, t.news, w + v)
    ensures forall k :: 0 <= k < |w| ==> t.info[k].refCount == s.info[w[k]].refCount >= 1
    ensures Inv(cfg, t, {}, {})
  {
    assert NewsOk(cfg, t.info, t.news) && NewsOk(cfg, s.info, s.news) && EntriesOk(s.info, {})
           && EntriesOk(t.info, Indexes(|w|));
    hide IndexOk, RandomOk, TriedOk, CountsOk;
    forall k | 0 <= k < |w| ensures t.info[k].refCount == s.info[w[k]].refCount >= 1 {
      RefsBack(s, t, w, v, k);
      assert EntryOk(s.info[w[k]], w[k] in {});
    }
    hide NewsOk;
    assert EntriesOk(t.info, {}) by {
      forall id | id in t.info ensures EntryOk(t.info[id], id in {}) {
        assert EntryOk(t.info[id], id in Indexes(|w|));
      }
    }
  }

  lemma LoadedTried(cfg: Config, s: Man, t: Man, w: seq<int>, v: seq<int>, j: int)
    requires TriedsLoaded(cfg, t, Records(s, w), Records(s, v), |v|) && 0 <= j < |v| && v[j] in s.info
    ensures |w| + j in t.info && t.info[|w| + j].inTried && ToRecord(t.info[|w| + j]) == ToRecord(s.info[v[j]])
  {
    hide Inv;
    assert Records(s, v)[j] == ToRecord(s.info[v[j]]);
  }

  /** The loaded tried entries have ids after the new ones; their slots follow from their addresses. */
  lemma TriedsBack(cfg: Config, s: Man, t: Man, w: seq<int>, v: seq<int>)
    requires TriedOk(cfg, s.info, s.tried) && TriedOk(cfg, t.info, t.tried) && Lists(s, w, v)
    requires TriedsLoaded(cfg, t, Records(s, w), Records(s, v), |v|)
    ensures SameTable(s.tried, t.tried, w + v)
  {
    hide Inv, Distinct;
    forall u | u in s.tried ensures u in t.tried && |w| <= t.tried[u] < |w| + |v| && v[t.tried[u] - |w|] == s.tried[u] {
      var j :| 0 <= j < |v| && v[j] == s.tried[u];
      LoadedTried(cfg, s, t, w, v, j);
    }
    forall u | u in t.tried ensures u in s.tried {
      var j := t.tried[u] - |w|;
      assert j >= 0 by { assert forall k :: 0 <= k < |w| ==> !t.info[k].inTried; }
      LoadedTried(cfg, s, t, w, v, j);
      var id := v[j];
      assert id in s.info && s.info[id].inTried;
      assert cfg.TriedSlot(s.info[id].addr) == cfg.TriedSlot(t.info[|w| + j].addr) == u;
      assert cfg.TriedSlot(s.info[id].addr) in s.tried;
    }
  }

  lemma NotLoose(cfg: Config, s: Man, id: int)
    requires Inv(cfg, s, {}, {}) && id in s.info && !s.info[id].inTried
    ensures s.info[id].refCount >= 1
  {
    hide IndexOk, RandomOk, TriedOk, NewsOk, CountsOk;
    assert EntriesOk(s.info, {});
  }

  lemma {:induction false} NothingPruned(cfg: Config, s: Man, ids: seq<int>, n: nat)
    requires n <= |ids| && Inv(cfg, s, {}, {})
    ensures Prune(cfg, s, ids, n) == s
  {
    hide Inv, Delete;
    if n > 0 {
      NothingPruned(cfg, s, ids, n - 1);
      if ids[n - 1] in s.info && !s.info[ids[n - 1]].inTried { NotLoose(cfg, s, ids[n - 1]); }
    }
  }

  lemma ListSize(ids: set<int>, w: seq<int>)
    requires Distinct(w) && forall id :: id in ids <==> id in w
    ensures |w| == |ids|
  {
    C.DistinctSize(w, |w|);
    forall id ensures id in C.FirstIds(w, |w|) <==> id in ids {
      if id in w {
        var k :| 0 <= k < |w| && w[k] == id;
      }
    }
    assert C.FirstIds(w, |w|) == ids;
  }

  lemma ListSizes(cfg: Config, s: Man, w: seq<int>, v: seq<int>)
    requires Inv(cfg, s, {}, {}) && Lists(s, w, v)
    ensures s.nNew == |w| && s.nTried == |v|
  {
    hide IndexOk, RandomOk, TriedOk, NewsOk, EntriesOk;
    ListSize(NewIds(s.info, {}), w);
    ListSize(TriedIds(s.info), v);
  }

  // ---------- the round trip ----------

  lemma AllNumbered(cfg: Config, s: Man, w: seq<int>, unknown: map<int, int>)
    requires NewsOk(cfg, s.info, s.news) && forall id :: id in s.info ==> cfg.valid(s.info[id].addr)
    requires forall id :: id in s.info && !s.info[id].inTried ==>
               id in unknown && 0 <= unknown[id] < |w| && w[unknown[id]] == id
    ensures Numbered(cfg, s, w, unknown)
  {
    forall u | u in s.news
      ensures s.news[u] in s.info && cfg.valid(s.info[s.news[u]].addr)
      ensures s.news[u] in unknown && 0 <= unknown[s.news[u]] < |w| && w[unknown[s.news[u]]] == s.news[u]
    {
      var id := s.news[u];
      assert id in s.info && !s.info[id].inTried;
    }
  }

  /** What is on the stream, and the state after each phase of loading it. */
  lemma Listed(cfg: Config, s: Man, order: seq<int>)
    requires Inv(cfg, s, {}, {}) && Enumerates(order, s.info)
    requires forall id :: id in s.info ==> cfg.valid(s.info[id].addr)
    ensures var w := NewOrder(s, order, |order|);
            Lists(s, w, TriedOrder(s, order, |order|)) && Numbered(cfg, s, w, Unknown(s, order, |order|))
  {
    hide NewOrder, TriedOrder, Unknown, Enumerates, IndexOk, RandomOk, TriedOk, CountsOk, EntriesOk, Distinct;
    NewOrderOk(cfg, s, order);
    TriedOrderOk(s, order);
    var w, unknown := NewOrder(s, order, |order|), Unknown(s, order, |order|);
    AllNumbered(cfg, s, w, unknown);
    hide Inv, NewsOk, Numbered;
    forall id | id in s.info && !s.info[id].inTried ensures id in w { assert w[unknown[id]] == id; }
  }

  /** Every slot written is read back and filled again by the entry that held it. */
  lemma Refilled(cfg: Config, s: Man, t: Man, order: seq<int>, asmap: nat)
    requires cfg.Ok() && Inv(cfg, s, {}, {})
    requires var w, v := NewOrder(s, order, |order|), TriedOrder(s, order, |order|);
             Lists(s, w, v) && Numbered(cfg, s, w, Unknown(s, order, |order|))
             && TriedsLoaded(cfg, t, Records(s, w), Records(s, v), |v|)
    ensures var w, v := NewOrder(s, order, |order|), TriedOrder(s, order, |order|);
            var pairs := Pairs(Serialize(cfg, s, order, asmap).buckets, |w|, cfg.newBuckets);
            var t' := RestoreAll(cfg, t, true, pairs, |pairs|);
            Inv(cfg, t', {}, {}) && SameTable(s.news, t'.news, w + v)
            && forall k :: 0 <= k < |w| ==> k in t'.info && t'.info[k].refCount == s.info[w[k]].refCount
  {
    var w, v := NewOrder(s, order, |order|), TriedOrder(s, order, |order|);
    var unknown := Unknown(s, order, |order|);
    assert forall u :: u in s.news ==> u.bucket < cfg.newBuckets && u.pos < cfg.bucketSize by {
      assert NewsOk(cfg, s.info, s.news);
    }
    hide Inv, NewOrder, TriedOrder, Unknown, TriedsLoaded, Restored, SameTable, Stands;
    PairsOk(cfg, s, order, asmap, |w|, cfg.newBuckets);
    hide Numbered, Serialize, Pairs;
    var slots := AllSlots(cfg, s.news, cfg.newBuckets);
    AllSlotsOk(cfg, s.news, cfg.newBuckets);
    LoadedStands(cfg, s, t, w, v, slots);
    RestoreAllOk(cfg, s, t, w, slots, unknown, |slots|);
    var t' := RestoreAll(cfg, t, true, PairsOf(s, unknown, slots), |slots|);
    NewsBack(cfg, s, t', w, v, slots);
    CountsBack(cfg, s, t', w, v, slots);
    StandsIn(s, t', w);
  }

  lemma StandsIn(s: Man, t: Man, w: seq<int>)
    requires Stands(s, t, w)
    ensures forall k :: 0 <= k < |w| ==> k in t.info && w[k] in s.info
  {
  }

  lemma EntriesBack(cfg: Config, s: Man, t: Man, t': Man, w: seq<int>, v: seq<int>)
    requires Inv(cfg, s, {}, {}) && Inv(cfg, t', {}, {}) && Lists(s, w, v) && OnlyRefs(t, t')
    requires TriedsLoaded(cfg, t, Records(s, w), Records(s, v), |v|)
    requires forall k :: 0 <= k < |w| ==> k in t'.info && t'.info[k].refCount == s.info[w[k]].refCount
    ensures forall k :: 0 <= k < |w + v| ==> SameEntry(s, t', (w + v)[k], k)
  {
    assert EntriesOk(s.info, {}) && EntriesOk(t'.info, {});
    hide Inv, Distinct;
    forall k | 0 <= k < |w + v| ensures SameEntry(s, t', (w + v)[k], k) {
      if k < |w| {
        assert Records(s, w)[k] == ToRecord(s.info[w[k]]);
      } else {
        var j := k - |w|;
        LoadedTried(cfg, s, t, w, v, j);
        assert EntryOk(s.info[v[j]], v[j] in {}) && EntryOk(t'.info[k], k in {});
      }
    }
  }

  lemma AllListed(s: Man, w: seq<int>, v: seq<int>)
    requires Lists(s, w, v)
    ensures Distinct(w + v) && forall id :: id in s.info <==> id in w + v
  {
    forall id ensures id in s.info <==> id in w + v {
      if id in s.info { assert id in w || id in v; }
    }
  }

  lemma AllBack(cfg: Config, s: Man, t: Man, t': Man, w: seq<int>, v: seq<int>)
    requires Inv(cfg, s, {}, {}) && Inv(cfg, t', {}, {}) && Lists(s, w, v) && OnlyRefs(t, t')
    requires TriedsLoaded(cfg, t, Records(s, w), Records(s, v), |v|) && SameTable(s.news, t'.news, w + v)
    requires forall k :: 0 <= k < |w| ==> k in t'.info && t'.info[k].refCount == s.info[w[k]].refCount
    ensures Valid(cfg, t') && SameUpToIds(s, t', w + v)
  {
    AllListed(s, w, v);
    EntriesBack(cfg, s, t, t', w, v);
    ListSizes(cfg, s, w, v);
    assert TriedOk(cfg, t.info, t.tried)
           && TriedOk(cfg, s.info, s.tried) by { hide IndexOk, RandomOk, NewsOk, CountsOk, EntriesOk; }
    TriedsBack(cfg, s, t, w, v);
    hide Inv, Lists, Distinct, SameEntry, SameTable;
  }

  /** Loading passes the size limits and ends in the restored manager, which the consistency check accepts. */
  lemma LoadsTo(cfg: Config, s: Man, t: Man, t': Man, order: seq<int>, asmap: nat, walk: seq<int>)
    requires cfg.Ok() && Valid(cfg, t')
    requires var saved := Serialize(cfg, s, order, asmap);
             && |saved.news| <= cfg.newBuckets * cfg.bucketSize && |saved.trieds| <= cfg.triedBuckets * cfg.bucketSize
             && t == LoadTrieds(cfg, LoadNews(cfg, saved.news, |saved.news|), saved.trieds, |saved.trieds|)
             && var pairs := Pairs(saved.buckets, |saved.news|, cfg.newBuckets); t' == RestoreAll(cfg, t, true, pairs, |pairs|)
    ensures Unserialize(cfg, Serialize(cfg, s, order, asmap), asmap, walk) == Some(t')
  {
    NothingPruned(cfg, t', walk, |walk|);
    C.ValidChecked(cfg, t');
    hide Inv, CollisionsOk, C.Checked, LoadTrieds, LoadNews, RestoreAll, Prune, Pairs;
  }

  /**
    Whatever order the entries are written in, and in whatever order they are visited for pruning,
    loading succeeds, passes the consistency check, and gives every address, table slot, reference
    count and total back. Entries with invalid addresses are the one thing loading drops.
   */
  lemma SaveLoad(cfg: Config, s: Man, order: seq<int>, asmap: nat, walk: seq<int>)
    requires cfg.Ok() && Valid(cfg, s) && Enumerates(order, s.info)
    requires forall id :: id in s.info ==> cfg.valid(s.info[id].addr)
    ensures var who := NewOrder(s, order, |order|) + TriedOrder(s, order, |order|);
            var r := Unserialize(cfg, Serialize(cfg, s, order, asmap), asmap, walk);
            r.Some? && Valid(cfg, r.value) && SameUpToIds(s, r.value, who)
  {
    hide Inv, CollisionsOk, NewOrder, TriedOrder, Unknown, Unserialize, RestoreAll, Pairs, SameUpToIds, Enumerates;
    hide LoadTrieds, LoadNews;
    var w, v := NewOrder(s, order, |order|), TriedOrder(s, order, |order|);
    Listed(cfg, s, order);
    NewsFit(cfg, s, w);
    TriedsFit(cfg, s, v);
    SavedLoadable(cfg, s, w, v);
    hide Lists, Loadable, Numbered, SameTable, OnlyRefs, TriedsLoaded, Records;
    LoadTriedsOk(cfg, Records(s, w), Records(s, v), |v|);
    var t := LoadTrieds(cfg, LoadNews(cfg, Records(s, w), |Records(s, w)|), Records(s, v), |v|);
    Refilled(cfg, s, t, order, asmap);
    var pairs := Pairs(Serialize(cfg, s, order, asmap).buckets, |w|, cfg.newBuckets);
    var t' := RestoreAll(cfg, t, true, pairs, |pairs|);
    RestoreAllFrame(cfg, t, true, pairs, |pairs|);
    AllBack(cfg, s, t, t', w, v);
    LoadsTo(cfg, s, t, t', order, asmap, walk);
  }

  /** Every manager that any run can build survives being saved and loaded. */
  lemma RunSaveLoad(cfg: Config, ops: seq<R.Op>, order: seq<int>, asmap: nat, walk: seq<int>)
    requires cfg.Ok() && R.AllAllowed(cfg, EMPTY, ops)
    requires Enumerates(order, R.Run(cfg, EMPTY, ops).info)
    ensures var s := R.Run(cfg, EMPTY, ops);
            var who := NewOrder(s, order, |order|) + TriedOrder(s, order, |order|);
            var r := Unserialize(cfg, Serialize(cfg, s, order, asmap), asmap, walk);
            r.Some? && Valid(cfg, r.value) && SameUpToIds(s, r.value, who)
  {
    hide Valid, R.Run, Unserialize, Serialize, NewOrder, TriedOrder, SameUpToIds, Enumerates;
    R.EmptyValid(cfg);
    R.RunKeeps(cfg, EMPTY, ops);
    SaveLoad(cfg, R.Run(cfg, EMPTY, ops), order, asmap, walk);
  }
}
