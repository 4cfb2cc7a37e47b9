/** Every operation of the address manager keeps all indexes consistent. */
module AddrManOps {

  import opened Collections
  import opened AddrManModel
  import opened AddrManInv

  // ---------- what an operation leaves alone ----------

  /** No new entry, no changed address; ids, collisions and tried slots as before. */
  ghost predicate Shrinks(s: Man, t: Man) {
    && t.idCount == s.idCount && t.collisions == s.collisions && t.tried == s.tried
    && t.info.Keys <= s.info.Keys
    && (forall k :: k in t.info ==> t.info[k].addr == s.info[k].addr)
  }

  lemma ShrinksTrans(s: Man, t: Man, u: Man)
    requires Shrinks(s, t) && Shrinks(t, u)
    ensures Shrinks(s, u)
  {
  }

  /** Up to their place in `vRandom`, entry `k` is the same before and after. */
  predicate Untouched(s: Man, t: Man, k: int) {
    k in s.info ==> k in t.info && t.info[k] == s.info[k].(randomPos := t.info[k].randomPos)
  }

  lemma SwapFrame(s: Man, p: int, q: int)
    requires RandomOk(s.info, s.random) && 0 <= p < |s.random| && 0 <= q < |s.random|
    ensures var t := SwapRandom(s, p, q);
            && t.info.Keys == s.info.Keys && |t.random| == |s.random|
            && t == s.(info := t.info, random := t.random)
            && forall k :: Untouched(s, t, k)
  {
    if p != q {
      var a, b := s.random[p], s.random[q];
      assert a in s.info && b in s.info && a != b;
    }
  }

  lemma DeleteFrame(cfg: Config, s: Man, id: int)
    requires RandomOk(s.info, s.random) && id in s.info && s.random != []
    ensures var t := Delete(cfg, s, id);
            && t.info.Keys == s.info.Keys - {id}
            && t.addrs == s.addrs - {s.info[id].addr}
            && t.tried == s.tried && t.news == s.news && t.idCount == s.idCount && t.collisions == s.collisions
            && forall k :: k != id ==> Untouched(s, t, k)
  {
    var p, q := s.info[id].randomPos, |s.random| - 1;
    assert 0 <= p < |s.random|;
    hide RandomOk, SwapRandom;
    SwapFrame(s, p, q);
    var s1, t := SwapRandom(s, p, q), Delete(cfg, s, id);
    forall k | k != id ensures Untouched(s, t, k) {
      assert Untouched(s, s1, k);
    }
  }

  /** Clearing a new slot: all but the tables' consistency. */
  lemma ClearNewFrame(cfg: Config, s: Man, slot: Slot)
    requires RandomOk(s.info, s.random) && (slot in s.news ==> s.news[slot] in s.info)
    ensures var t := ClearNew(cfg, s, slot);
            && t.info.Keys <= s.info.Keys
            && t.tried == s.tried && t.idCount == s.idCount && t.collisions == s.collisions
            && t.news == s.news - {slot}
            && forall k :: slot !in s.news || k != s.news[slot] ==> Untouched(s, t, k)
  {
    if slot in s.news {
      var id := s.news[slot];
      assert s.random != [];
      var s1 := DropRef(s, slot);
      RandomStays(s.info, s1.info, s.random);
      hide RandomOk;
      if s1.info[id].refCount == 0 { DeleteFrame(cfg, s1, id); }
    } else {
      assert s.news - {slot} == s.news;
    }
  }

  /** Clearing a new slot takes one reference away, and the entry with it if that was its last. */
  lemma ClearNewKeeps(cfg: Config, s: Man, slot: Slot, loose: set<int>, limbo: set<int>)
    requires Inv(cfg, s, loose, limbo) && limbo <= loose
    requires forall k :: k in loose && k in s.info ==> s.info[k].refCount == 0
    ensures Inv(cfg, ClearNew(cfg, s, slot), loose, limbo)
  {
    hide IndexOk, TriedOk, CountsOk;
    if slot in s.news {
      var id := s.news[slot];
      hide NewsOk;
      DropRefKeeps(cfg, s, slot, loose, limbo);
      var s1 := DropRef(s, slot);
      assert id !in loose && s.random != [];
      if s1.info[id].refCount == 0 {
        DeleteKeeps(cfg, s1, id, loose + {id}, limbo);
        assert loose + {id} - {id} == loose;
      }
    }
  }

  // ---------- leaving the new table ----------

  /** How far bucket `b` is after `start`, going round. */
  function Offset(b: nat, start: nat, n: nat): int {
    if b >= start then b - start else b + n - start
  }

  lemma BucketAt(start: nat, m: nat, n: nat)
    requires start < n && m < n
    ensures (start + m) % n < n && Offset((start + m) % n, start, n) == m
    ensures forall b: nat :: b < n && Offset(b, start, n) == m ==> b == (start + m) % n
  {
    if start + m < n {
      assert (start + m) % n == start + m;
    } else {
      assert (start + m) % n == start + m - n;
    }
  }

  ghost predicate RefsAhead(cfg: Config, s: Man, id: int, start: nat, m: nat) {
    forall t :: t in s.news && s.news[t] == id ==> Offset(t.bucket, start, cfg.newBuckets) >= m
  }

  /** The loop finds every reference, wherever it starts: afterwards none is left and the count is zero. */
  lemma {:induction false} ClearRefsFinds(cfg: Config, s: Man, id: int, start: nat, m: nat)
    requires NewsOk(cfg, s.info, s.news) && id in s.info && start < cfg.newBuckets && m <= cfg.newBuckets
    requires RefsAhead(cfg, s, id, start, m)
    ensures ClearRefs(cfg, s, id, start, m) ==
            s.(info := s.info[id := s.info[id].(refCount := 0)], news := s.news - Refs(s.news, id))
    decreases cfg.newBuckets - m
  {
    hide NewsOk, RefsAhead;
    if m == cfg.newBuckets {
      NoRefsLeft(cfg, s, id, start);
    } else {
      var slot := cfg.NewSlotIn(s.info[id].addr, (start + m) % cfg.newBuckets);
      RefsAheadNext(cfg, s, id, start, m, slot);
      if slot in s.news && s.news[slot] == id {
        DropStep(cfg, s, id, slot);
        var s1 := DropRef(s, slot);
        NewsAfterDrop(cfg, s.info, s.news, slot);
        if s1.info[id].refCount != 0 { ClearRefsFinds(cfg, s1, id, start, m + 1); }
      } else {
        ClearRefsFinds(cfg, s, id, start, m + 1);
      }
    }
  }

  /** Dropping one reference first does not change where dropping all of them ends. */
  lemma DropStep(cfg: Config, s: Man, id: int, slot: Slot)
    requires NewsOk(cfg, s.info, s.news) && id in s.info && slot in s.news && s.news[slot] == id
    ensures var s1 := DropRef(s, slot);
            && s1.news - Refs(s1.news, id) == s.news - Refs(s.news, id)
            && s1.info[id := s1.info[id].(refCount := 0)] == s.info[id := s.info[id].(refCount := 0)]
            && (s1.info[id].refCount == 0 ==> s1.news == s.news - Refs(s.news, id))
  {
    var s1 := DropRef(s, slot);
    RefsDrop(s.news, slot);
    assert Refs(s1.news, id) == Refs(s.news, id) - {slot};
    assert s1.info[id].refCount == |Refs(s1.news, id)|;
    assert s1.info[id].refCount == 0 ==> Refs(s.news, id) == {slot};
  }

  lemma NoRefsLeft(cfg: Config, s: Man, id: int, start: nat)
    requires NewsOk(cfg, s.info, s.news) && id in s.info && start < cfg.newBuckets
    requires RefsAhead(cfg, s, id, start, cfg.newBuckets)
    ensures Refs(s.news, id) == {} && s.info[id].refCount == 0
    ensures s == s.(info := s.info[id := s.info[id].(refCount := 0)], news := s.news - Refs(s.news, id))
  {
    forall t | t in s.news ensures s.news[t] != id {
      assert Offset(t.bucket, start, cfg.newBuckets) < cfg.newBuckets;
    }
    assert Refs(s.news, id) == {};
    assert s.info[id := s.info[id].(refCount := 0)] == s.info;
    assert s.news - {} == s.news;
  }

  /** A reference in the bucket just looked at can only be the slot just looked at. */
  lemma RefsAheadNext(cfg: Config, s: Man, id: int, start: nat, m: nat, slot: Slot)
    requires NewsOk(cfg, s.info, s.news) && id in s.info && start < cfg.newBuckets && m < cfg.newBuckets
    requires RefsAhead(cfg, s, id, start, m)
    requires slot == cfg.NewSlotIn(s.info[id].addr, (start + m) % cfg.newBuckets)
    ensures if slot in s.news && s.news[slot] == id then RefsAhead(cfg, DropRef(s, slot), id, start, m + 1)
            else RefsAhead(cfg, s, id, start, m + 1)
  {
    BucketAt(start, m, cfg.newBuckets);
    forall t | t in s.news && s.news[t] == id && t != slot
      ensures Offset(t.bucket, start, cfg.newBuckets) >= m + 1
    {
      assert AtHome(cfg, s.info[id].addr, t);
    }
  }

  lemma NewsAfterClear(cfg: Config, info: map<int, Info>, news: map<Slot, int>, id: int)
    requires NewsOk(cfg, info, news) && id in info
    ensures NewsOk(cfg, info[id := info[id].(refCount := 0)], news - Refs(news, id))
  {
    var left := news - Refs(news, id);
    assert Refs(left, id) == {};
    forall k | k != id ensures Refs(left, k) == Refs(news, k) {}
  }

  lemma ClearRefsKeeps(cfg: Config, s: Man, id: int)
    requires Inv(cfg, s, {}, {}) && id in s.info && !s.info[id].inTried
    requires cfg.newBucket(s.info[id].addr, s.info[id].source) < cfg.newBuckets
    ensures var t := ClearRefs(cfg, s, id, cfg.newBucket(s.info[id].addr, s.info[id].source), 0);
            && Inv(cfg, t, {id}, {})
            && t == s.(info := s.info[id := s.info[id].(refCount := 0)], news := s.news - Refs(s.news, id))
  {
    hide IndexOk, RandomOk, TriedOk, NewsOk, CountsOk;
    ClearRefsFinds(cfg, s, id, cfg.newBucket(s.info[id].addr, s.info[id].source), 0);
    NewsAfterClear(cfg, s.info, s.news, id);
    RecountKeeps(cfg, s, id, 0, s.news - Refs(s.news, id), {}, {id}, {});
  }

  // ---------- between the tables ----------

  /** The entry stops being counted as new. */
  lemma LeaveNewKeeps(cfg: Config, s: Man, id: int)
    requires Inv(cfg, s, {id}, {}) && id in s.info && !s.info[id].inTried
    ensures Inv(cfg, CountNew(cfg, s, id, -1), {id}, {id})
  {
    hide RandomOk, TriedOk, NewsOk, CountsOk;
    var t := CountNew(cfg, s, id, -1);
    assert NewIds(t.info, {id}) == NewIds(s.info, {}) - {id};
    UncountNew(cfg, s, t, {}, {id}, id);
  }

  /** A tried entry loses its slot and its place in the count. */
  lemma LeaveTriedKeeps(cfg: Config, s: Man, slot: Slot, limbo: set<int>)
    requires Inv(cfg, s, limbo, limbo)
    requires slot in s.tried
    ensures var id := s.tried[slot];
            && id in s.info && s.info[id].inTried && s.info[id].refCount == 0
            && Inv(cfg, LeaveTried(cfg, s, slot), limbo + {id}, limbo + {id})
  {
    hide CountsOk, NewsOk, IndexOk, RandomOk;
    var id := s.tried[slot];
    assert id in s.info && s.info[id].inTried;
    hide TriedOk;
    var t := LeaveTried(cfg, s, slot);
    assert t.info.Keys == s.info.Keys;
    IndexStays(s, t);
    RandomStays(s.info, t.info, s.random);
    TriedLeft(cfg, s.info, s.tried, slot);
    NewsUntried(cfg, s.info, s.news, id);
    UntryIds(s.info, id, limbo);
    UncountTried(cfg, s, t, limbo, limbo + {id}, id);
  }

  lemma TriedLeft(cfg: Config, info: map<int, Info>, tried: map<Slot, int>, slot: Slot)
    requires TriedOk(cfg, info, tried) && slot in tried
    ensures var id := tried[slot]; TriedOk(cfg, info[id := info[id].(inTried := false)], tried - {slot})
  {
  }

  lemma NewsUntried(cfg: Config, info: map<int, Info>, news: map<Slot, int>, id: int)
    requires NewsOk(cfg, info, news) && id in info && info[id].inTried
    ensures NewsOk(cfg, info[id := info[id].(inTried := false)], news)
  {
  }

  lemma UntryIds(info: map<int, Info>, id: int, limbo: set<int>)
    requires id in info && info[id].inTried
    ensures var b := info[id := info[id].(inTried := false)];
            TriedIds(b) == TriedIds(info) - {id} && NewIds(b, limbo + {id}) == NewIds(info, limbo)
  {
  }

  /** An entry between the tables is counted as new again. */
  lemma JoinNewKeeps(cfg: Config, s: Man, id: int, loose: set<int>, limbo: set<int>)
    requires Inv(cfg, s, loose, limbo + {id}) && id in s.info && !s.info[id].inTried && id !in limbo
    ensures Inv(cfg, CountNew(cfg, s, id, 1), loose, limbo)
  {
    hide RandomOk, TriedOk, NewsOk, CountsOk;
    var t := CountNew(cfg, s, id, 1);
    assert NewIds(t.info, limbo) == NewIds(s.info, limbo + {id}) + {id};
    CountNewIds(cfg, s, t, limbo + {id}, limbo, id);
  }

  /** An entry between the tables takes a free tried slot. */
  lemma JoinTriedKeeps(cfg: Config, s: Man, id: int)
    requires Inv(cfg, s, {id}, {id}) && id in s.info && !s.info[id].inTried
    requires s.info[id].refCount == 0 && s.info[id].lastSuccess > 0
    requires cfg.TriedSlot(s.info[id].addr) !in s.tried
    ensures Inv(cfg, EnterTried(cfg, s, id), {}, {})
  {
    hide CountsOk;
    var t := EnterTried(cfg, s, id);
    assert t.info.Keys == s.info.Keys;
    IndexStays(s, t);
    RandomStays(s.info, t.info, s.random);
    hide IndexOk, RandomOk;
    TriedTaken(cfg, s.info, s.tried, id);
    hide TriedOk;
    NewsTried(cfg, s.info, s.news, id);
    hide NewsOk;
    TryIds(s.info, id);
    CountTried(cfg, s, t, {id}, {}, id);
  }

  lemma TriedTaken(cfg: Config, info: map<int, Info>, tried: map<Slot, int>, id: int)
    requires TriedOk(cfg, info, tried) && id in info && !info[id].inTried && cfg.TriedSlot(info[id].addr) !in tried
    ensures TriedOk(cfg, info[id := info[id].(inTried := true)], tried[cfg.TriedSlot(info[id].addr) := id])
  {
  }

  lemma NewsTried(cfg: Config, info: map<int, Info>, news: map<Slot, int>, id: int)
    requires NewsOk(cfg, info, news) && id in info && info[id].refCount == 0
    ensures NewsOk(cfg, info[id := info[id].(inTried := true)], news)
  {
    assert Refs(news, id) == {};
    assert forall t :: t in news ==> t in Refs(news, news[t]);
  }

  lemma TryIds(info: map<int, Info>, id: int)
    requires id in info && !info[id].inTried
    ensures var b := info[id := info[id].(inTried := true)];
            TriedIds(b) == TriedIds(info) + {id} && NewIds(b, {}) == NewIds(info, {id})
  {
  }
}
