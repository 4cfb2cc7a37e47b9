/** Which transaction at hand each slot of a compact block ends up with, exactly. */
module CompactBlocksScans {

  import opened Collections
  import opened CompactBlocks
  import opened CompactBlocksProofs

  // ---------- what a slot should hold ----------

  /** The transactions with a short id, in order. */
  function Matches(shortId: nat -> nat, txs: seq<Tx>, id: nat): (r: seq<Tx>)
    ensures forall tx :: tx in r <==> tx in txs && shortId(tx.hash) == id
  {
    if txs == [] then []
    else
      var n := |txs| - 1;
      assert txs == txs[..n] + [txs[n]];
      Matches(shortId, txs[..n], id) + if shortId(txs[n].hash) == id then [txs[n]] else []
  }

  lemma MatchesMore(shortId: nat -> nat, txs: seq<Tx>, k: nat, id: nat)
    requires k < |txs|
    ensures var before := Matches(shortId, txs[..k], id);
            Matches(shortId, txs[..k + 1], id) == if shortId(txs[k].hash) == id then before + [txs[k]] else before
  {
    assert txs[..k + 1][..k] == txs[..k];
    assert Matches(shortId, txs[..k], id) + [] == Matches(shortId, txs[..k], id);
  }

  /**
    The transaction for a slot, given the matches from the pool and the extra ones: the only match from
    the pool, or else the first extra one, if no extra one is another transaction.
   */
  function Settled(fromPool: seq<Tx>, fromExtra: seq<Tx>): Option<Tx> {
    if |fromPool| > 1 || fromPool + fromExtra == [] then None
    else
      var first := (fromPool + fromExtra)[0];
      if forall tx :: tx in fromExtra ==> tx.hash == first.hash then Some(first) else None
  }

  function SettledAt(shortId: nat -> nat, pool: seq<Tx>, extra: seq<Tx>, id: nat): Option<Tx> {
    Settled(Matches(shortId, pool, id), Matches(shortId, extra, id))
  }

  /** Every short id is settled. */
  predicate Complete(shortId: nat -> nat, ids: set<nat>, pool: seq<Tx>, extra: seq<Tx>) {
    forall id :: id in ids ==> SettledAt(shortId, pool, extra, id).Some?
  }

  // ---------- the scans compute that ----------

  /** Every slot is settled by what was looked at so far. */
  ghost predicate Exact(shortId: nat -> nat, ids: map<nat, nat>, s: Scan, pool: seq<Tx>, extra: seq<Tx>) {
    && Fits(ids, s)
    && (forall id :: id in ids ==> s.slots[ids[id]] == SettledAt(shortId, pool, extra, id))
    && (forall id :: id in ids ==>
          s.have[ids[id]] == (Matches(shortId, pool, id) + Matches(shortId, extra, id) != []))
  }

  lemma OnePoolMatch(fromPool: seq<Tx>, tx: Tx)
    ensures Settled(fromPool + [tx], []) == if fromPool == [] then Some(tx) else None
    ensures Settled(fromPool, []).Some? <==> |fromPool| == 1
  {
  }

  lemma OneExtraMatch(fromPool: seq<Tx>, fromExtra: seq<Tx>, tx: Tx)
    ensures var now, before := Settled(fromPool, fromExtra + [tx]), Settled(fromPool, fromExtra);
            now == if fromPool + fromExtra == [] then Some(tx)
                   else if before.Some? && before.value.hash != tx.hash then None else before
  {
    var all := fromExtra + [tx];
    assert fromPool + all == (fromPool + fromExtra) + [tx];
    assert tx in all && forall x :: x in fromExtra ==> x in all;
    assert forall x :: x in all ==> x in fromExtra || x == tx;
  }

  lemma PoolStepExact(shortId: nat -> nat, ids: map<nat, nat>, s: Scan, pool: seq<Tx>, k: nat)
    requires OneToOne(ids) && k < |pool| && Exact(shortId, ids, s, pool[..k], [])
    ensures Exact(shortId, ids, PoolStep(ids, shortId(pool[k].hash), pool[k], s), pool[..k + 1], [])
  {
    hide Settled, Matches;
    var tx := pool[k];
    var t := PoolStep(ids, shortId(tx.hash), tx, s);
    forall id | id in ids
      ensures t.slots[ids[id]] == SettledAt(shortId, pool[..k + 1], [], id)
      ensures t.have[ids[id]] == (Matches(shortId, pool[..k + 1], id) + Matches(shortId, [], id) != [])
    {
      NoMatches(shortId, id);
      MatchesMore(shortId, pool, k, id);
      OnePoolMatch(Matches(shortId, pool[..k], id), tx);
    }
  }

  lemma NoMatches(shortId: nat -> nat, id: nat)
    ensures Matches(shortId, [], id) == []
  {
  }

  lemma ExtraStepExact(shortId: nat -> nat, ids: map<nat, nat>, s: Scan, pool: seq<Tx>, extra: seq<Tx>, k: nat)
    requires OneToOne(ids) && k < |extra| && Exact(shortId, ids, s, pool, extra[..k])
    ensures Exact(shortId, ids, ExtraStep(ids, shortId(extra[k].hash), extra[k], s), pool, extra[..k + 1])
  {
    hide Settled, Matches;
    var tx := extra[k];
    var t := ExtraStep(ids, shortId(tx.hash), tx, s);
    forall id | id in ids
      ensures t.slots[ids[id]] == SettledAt(shortId, pool, extra[..k + 1], id)
      ensures t.have[ids[id]] == (Matches(shortId, pool, id) + Matches(shortId, extra[..k + 1], id) != [])
    {
      MatchesMore(shortId, extra, k, id);
      OneExtraMatch(Matches(shortId, pool, id), Matches(shortId, extra[..k], id), tx);
    }
  }

  /** The counter equals the number of short ids exactly if each is settled. */
  lemma CountComplete(shortId: nat -> nat, ids: map<nat, nat>, base: Slots, known: set<Tx>, s: Scan, pool: seq<Tx>,
                      extra: seq<Tx>)
    requires Scanned(shortId, ids, base, known, s) && Exact(shortId, ids, s, pool, extra)
    ensures s.count == |ids| <==> Complete(shortId, ids.Keys, pool, extra)
  {
    var found := Found(ids, s.slots);
    hide SettledAt;
    assert |ids| == |ids.Keys| && found <= ids.Keys;
    SubsetFull(found, ids.Keys);
    if found == ids.Keys {
      forall id | id in ids ensures SettledAt(shortId, pool, extra, id).Some? { assert id in found; }
    }
    if Complete(shortId, ids.Keys, pool, extra) {
      forall id | id in ids ensures id in found { assert s.slots[ids[id]].Some?; }
    }
  }

  lemma SubsetFull(a: set<nat>, b: set<nat>)
    requires a <= b
    ensures |a| == |b| <==> a == b
  {
    assert b == a + (b - a);
  }

  /** The first number from `k + 1` on at which all is settled, or the end. */
  ghost predicate PoolEnds(shortId: nat -> nat, ids: set<nat>, pool: seq<Tx>, k: nat, n: nat) {
    && k <= n <= |pool|
    && (forall m :: k < m < n ==> !Complete(shortId, ids, pool[..m], []))
    && (n < |pool| ==> k < n && Complete(shortId, ids, pool[..n], []))
  }

  ghost predicate ExtraEnds(shortId: nat -> nat, ids: set<nat>, pool: seq<Tx>, extra: seq<Tx>, k: nat, n: nat) {
    && k <= n <= |extra|
    && (forall m :: k < m < n ==> !Complete(shortId, ids, pool, extra[..m]))
    && (n < |extra| ==> k < n && Complete(shortId, ids, pool, extra[..n]))
  }

  lemma {:induction false} PoolScanExact(shortId: nat -> nat, ids: map<nat, nat>, base: Slots, known: set<Tx>, pool: seq<Tx>,
                                         k: nat, s: Scan)
    returns (n: nat)
    requires OneToOne(ids) && k <= |pool| && Scanned(shortId, ids, base, known, s) && Exact(shortId, ids, s, pool[..k], [])
    requires forall i :: 0 <= i < |pool| ==> pool[i] in known
    ensures PoolEnds(shortId, ids.Keys, pool, k, n)
    ensures Exact(shortId, ids, ScanFrom(shortId, ids, pool, false, k, s), pool[..n], [])
    decreases |pool| - k
  {
    hide Scanned, Complete, OneToOne, PoolStep;
    n := k;
    if k < |pool| {
      StepKeeps(shortId, ids, base, known, s, pool[k], false);
      PoolStepExact(shortId, ids, s, pool, k);
      hide Exact;
      var t := PoolStep(ids, shortId(pool[k].hash), pool[k], s);
      CountComplete(shortId, ids, base, known, t, pool[..k + 1], []);
      if t.count == |ids| { n := k + 1; } else { n := PoolScanExact(shortId, ids, base, known, pool, k + 1, t); }
    }
  }

  lemma {:induction false} ExtraScanExact(shortId: nat -> nat, ids: map<nat, nat>, base: Slots, known: set<Tx>, pool: seq<Tx>,
                                          extra: seq<Tx>, k: nat, s: Scan)
    returns (n: nat)
    requires OneToOne(ids) && k <= |extra| && Scanned(shortId, ids, base, known, s)
    requires Exact(shortId, ids, s, pool, extra[..k]) && forall i :: 0 <= i < |extra| ==> extra[i] in known
    ensures ExtraEnds(shortId, ids.Keys, pool, extra, k, n)
    ensures Exact(shortId, ids, ScanFrom(shortId, ids, extra, true, k, s), pool, extra[..n])
    decreases |extra| - k
  {
    hide Scanned, Complete, OneToOne, ExtraStep;
    n := k;
    if k < |extra| {
      StepKeeps(shortId, ids, base, known, s, extra[k], true);
      ExtraStepExact(shortId, ids, s, pool, extra, k);
      hide Exact;
      var t := ExtraStep(ids, shortId(extra[k].hash), extra[k], s);
      CountComplete(shortId, ids, base, known, t, pool, extra[..k + 1]);
      if t.count == |ids| { n := k + 1; } else { n := ExtraScanExact(shortId, ids, base, known, pool, extra, k + 1, t); }
    }
  }

  // ---------- what `InitData` leaves, exactly ----------

  function IdsOf(shortIds: seq<nat>): set<nat> { set id | id in shortIds }

  lemma IdMapKeys(ids: seq<nat>, free: seq<nat>)
    requires |ids| == |free|
    ensures IdMap(ids, free, |ids|).Keys == IdsOf(ids)
  {
    hide IdMap;
    var m := IdMap(ids, free, |ids|);
    IdMapSize(ids, free, |ids|);
    forall id | id in m ensures id in ids { var i := IdMapFrom(ids, free, |ids|, id); }
  }

  lemma FirstExact(shortId: nat -> nat, ids: map<nat, nat>, slots: Slots, pool: seq<Tx>)
    requires forall id :: id in ids ==> ids[id] < |slots| && slots[ids[id]].None?
    ensures Exact(shortId, ids, Scan(slots, seq(|slots|, _ => false), 0), pool[..0], [])
  {
    assert pool[..0] == [];
    forall id | id in ids ensures Matches(shortId, [], id) == [] { NoMatches(shortId, id); }
  }

  /** The short ids among `ids` that are settled. */
  function SettledIds(shortId: nat -> nat, ids: set<nat>, pool: seq<Tx>, extra: seq<Tx>): set<nat> {
    set id | id in ids && SettledAt(shortId, pool, extra, id).Some?
  }

  /**
    On acceptance: the first `n` transactions of the pool and the first `m` extra ones are looked at, each
    scan ending at the first point after its start where every short id is settled, or at its end;
    each short id has in its slot exactly what these settle; and the counter counts the settled ones.
   */
  lemma InitDataExact(shortId: nat -> nat, c: Announcement, maxCount: nat, evenBuckets: bool, pool: seq<Tx>, extra: seq<Tx>)
    returns (n: nat, m: nat)
    requires InitData(shortId, c, maxCount, evenBuckets, pool, extra).0 == OK
    ensures Prefill(c, |c.prefilled|).Some?
    ensures PoolEnds(shortId, IdsOf(c.shortIds), pool, 0, n) && ExtraEnds(shortId, IdsOf(c.shortIds), pool[..n], extra, 0, m)
    ensures var slots := InitData(shortId, c, maxCount, evenBuckets, pool, extra).1;
            forall j :: 0 <= j < |c.shortIds| ==>
              ShortSlot(c, j) < |slots| && slots[ShortSlot(c, j)] == SettledAt(shortId, pool[..n], extra[..m], c.shortIds[j])
    ensures InitData(shortId, c, maxCount, evenBuckets, pool, extra).2 ==
            |SettledIds(shortId, IdsOf(c.shortIds), pool[..n], extra[..m])|
  {
    AcceptedScan(shortId, c, maxCount, evenBuckets, pool, extra);
    hide InitData, Prefill, IdMap, FreeSlots, Missing, Exact, PoolEnds, ExtraEnds, SettledAt, ScanFrom;
    var slots := Prefill(c, |c.prefilled|).value.0;
    n, m := FromNothing(shortId, c.shortIds, FreeSlots(slots, |slots|), slots, pool, extra);
  }

  /** An accepted announcement is looked through from the transactions sent along. */
  lemma AcceptedScan(shortId: nat -> nat, c: Announcement, maxCount: nat, evenBuckets: bool, pool: seq<Tx>, extra: seq<Tx>)
    requires InitData(shortId, c, maxCount, evenBuckets, pool, extra).0 == OK
    ensures Prefill(c, |c.prefilled|).Some?
    ensures var slots := Prefill(c, |c.prefilled|).value.0;
            var ids := IdMap(c.shortIds, FreeSlots(slots, |slots|), |c.shortIds|);
            var s0 := Scan(slots, seq(|slots|, _ => false), 0);
            && |ids| == |c.shortIds| && Fits(ids, s0)
            && var s := ScanFrom(shortId, ids, extra, true, 0, ScanFrom(shortId, ids, pool, false, 0, s0));
               InitData(shortId, c, maxCount, evenBuckets, pool, extra) == (OK, s.slots, s.count)
  {
    hide Prefill, IdMap, FreeSlots, Missing, ScanFrom;
    var slots := Prefill(c, |c.prefilled|).value.0;
    IdMapFits(c.shortIds, FreeSlots(slots, |slots|), |c.shortIds|, |slots|);
  }

  lemma FromNothing(shortId: nat -> nat, shortIds: seq<nat>, free: seq<nat>, slots: Slots, pool: seq<Tx>, extra: seq<Tx>)
    returns (n: nat, m: nat)
    requires |shortIds| == |free| == |IdMap(shortIds, free, |shortIds|)|
    requires forall k :: 0 <= k < |free| ==> free[k] < |slots| && slots[free[k]].None?
    requires forall j, k :: 0 <= j < k < |free| ==> free[j] < free[k]
    ensures PoolEnds(shortId, IdsOf(shortIds), pool, 0, n)
    ensures ExtraEnds(shortId, IdsOf(shortIds), pool[..n], extra, 0, m)
    ensures var ids, s0 := IdMap(shortIds, free, |shortIds|), Scan(slots, seq(|slots|, _ => false), 0);
            && Fits(ids, s0)
            && var s := ScanFrom(shortId, ids, extra, true, 0, ScanFrom(shortId, ids, pool, false, 0, s0));
               && |s.slots| == |slots|
               && (forall j :: 0 <= j < |free| ==> s.slots[free[j]] == SettledAt(shortId, pool[..n], extra[..m], shortIds[j]))
               && s.count == |SettledIds(shortId, IdsOf(shortIds), pool[..n], extra[..m])|
  {
    hide IdMap, Scanned, OneToOne, Exact, Complete, SettledAt, ScanFrom, IdsOf;
    var ids := IdMap(shortIds, free, |shortIds|);
    var s0 := Scan(slots, seq(|slots|, _ => false), 0);
    IdMapOneToOne(shortIds, free);
    IdMapIs(shortIds, free, |shortIds|);
    IdMapKeys(shortIds, free);
    IdsFree(shortIds, free, slots, |shortIds|);
    FirstScan(shortId, shortIds, free, slots, Known(pool, extra));
    FirstExact(shortId, ids, slots, pool);
    n, m := ScansExact(shortId, ids, slots, pool, extra, s0);
    var s := ScanFrom(shortId, ids, extra, true, 0, ScanFrom(shortId, ids, pool, false, 0, s0));
    ExactAt(shortId, ids, s, pool[..n], extra[..m]);
    CountIs(shortId, ids, slots, Known(pool, extra), s, pool[..n], extra[..m]);
  }

  lemma CountIs(shortId: nat -> nat, ids: map<nat, nat>, base: Slots, known: set<Tx>, s: Scan, pool: seq<Tx>, extra: seq<Tx>)
    requires Scanned(shortId, ids, base, known, s) && Exact(shortId, ids, s, pool, extra)
    ensures s.count == |SettledIds(shortId, ids.Keys, pool, extra)|
  {
    hide SettledAt;
    assert Found(ids, s.slots) == SettledIds(shortId, ids.Keys, pool, extra);
  }

  lemma ExactAt(shortId: nat -> nat, ids: map<nat, nat>, s: Scan, pool: seq<Tx>, extra: seq<Tx>)
    requires Exact(shortId, ids, s, pool, extra)
    ensures forall id :: id in ids ==> ids[id] < |s.slots| && s.slots[ids[id]] == SettledAt(shortId, pool, extra, id)
  {
    hide SettledAt;
  }

  lemma ScansExact(shortId: nat -> nat, ids: map<nat, nat>, base: Slots, pool: seq<Tx>, extra: seq<Tx>, s0: Scan)
    returns (n: nat, m: nat)
    requires OneToOne(ids) && Scanned(shortId, ids, base, Known(pool, extra), s0) && Exact(shortId, ids, s0, pool[..0], [])
    ensures PoolEnds(shortId, ids.Keys, pool, 0, n) && ExtraEnds(shortId, ids.Keys, pool[..n], extra, 0, m)
    ensures Fits(ids, s0)
    ensures var s1 := ScanFrom(shortId, ids, pool, false, 0, s0);
            var s2 := ScanFrom(shortId, ids, extra, true, 0, s1);
            Exact(shortId, ids, s2, pool[..n], extra[..m]) && Scanned(shortId, ids, base, Known(pool, extra), s2)
  {
    assert Fits(ids, s0);
    hide Scanned, OneToOne, Exact, ExtraEnds, ScanFrom;
    var known := Known(pool, extra);
    n := PoolScanExact(shortId, ids, base, known, pool, 0, s0);
    var s1 := ScanFrom(shortId, ids, pool, false, 0, s0);
    ScanKeeps(shortId, ids, base, known, pool, false, 0, s0);
    assert extra[..0] == [];
    m := ExtraScanExact(shortId, ids, base, known, pool[..n], extra, 0, s1);
    ScanKeeps(shortId, ids, base, known, extra, true, 0, s1);
  }

  // ---------- in terms of everything at hand ----------

  lemma {:induction false} MatchesPrefix(shortId: nat -> nat, txs: seq<Tx>, n: nat, id: nat)
    requires n <= |txs|
    ensures Matches(shortId, txs[..n], id) <= Matches(shortId, txs, id)
    decreases |txs| - n
  {
    if n == |txs| {
      assert txs[..n] == txs;
    } else {
      MatchesMore(shortId, txs, n, id);
      MatchesPrefix(shortId, txs, n + 1, id);
    }
  }

  /** However the scans end: what they looked at has one match in the pool, if the whole pool has one. */
  lemma OnlyMatch(shortId: nat -> nat, ids: set<nat>, pool: seq<Tx>, n: nat, id: nat)
    requires id in ids && |Matches(shortId, pool, id)| == 1 && PoolEnds(shortId, ids, pool, 0, n)
    ensures Matches(shortId, pool[..n], id) == Matches(shortId, pool, id)
  {
    hide Matches;
    if n == |pool| {
      assert pool[..n] == pool;
    } else {
      NoMatches(shortId, id);
      assert SettledAt(shortId, pool[..n], [], id).Some?;
      OnePoolMatch(Matches(shortId, pool[..n], id), Tx(0, 0, true));
      MatchesPrefix(shortId, pool, n, id);
    }
  }

  /**
    A short id with one match in the pool, and no other transaction among the extra ones that match, has that
    one in its slot. One without any match has an empty slot. One with two matches in the pool has
    an empty slot, too, if the scan of the pool is not cut short.
   */
  lemma SlotHolds(shortId: nat -> nat, c: Announcement, maxCount: nat, evenBuckets: bool, pool: seq<Tx>, extra: seq<Tx>,
                  j: nat)
    requires InitData(shortId, c, maxCount, evenBuckets, pool, extra).0 == OK && j < |c.shortIds|
    ensures Prefill(c, |c.prefilled|).Some?
    ensures var slots := InitData(shortId, c, maxCount, evenBuckets, pool, extra).1;
            var id := c.shortIds[j];
            var inPool, inExtra := Matches(shortId, pool, id), Matches(shortId, extra, id);
            && ShortSlot(c, j) < |slots|
            && (|inPool| == 1 && (forall tx :: tx in inExtra ==> tx.hash == inPool[0].hash) ==>
                  slots[ShortSlot(c, j)] == Some(inPool[0]))
            && (inPool == [] && inExtra == [] ==> slots[ShortSlot(c, j)] == None)
            && (|inPool| > 1 && (forall k :: 0 < k < |pool| ==> !Complete(shortId, IdsOf(c.shortIds), pool[..k], [])) ==>
                  slots[ShortSlot(c, j)] == None)
  {
    var n, m := InitDataExact(shortId, c, maxCount, evenBuckets, pool, extra);
    hide InitData, Prefill, ShortSlot, Matches, Complete;
    var id := c.shortIds[j];
    var slots := InitData(shortId, c, maxCount, evenBuckets, pool, extra).1;
    var inPool, inExtra := Matches(shortId, pool, id), Matches(shortId, extra, id);
    MatchesPrefix(shortId, pool, n, id);
    MatchesPrefix(shortId, extra, m, id);
    assert slots[ShortSlot(c, j)] == Settled(Matches(shortId, pool[..n], id), Matches(shortId, extra[..m], id));
    if |inPool| == 1 { OnlyMatch(shortId, IdsOf(c.shortIds), pool, n, id); }
    if n == |pool| { assert pool[..n] == pool; }
  }

  // ---------- a block that is all in the pool ----------

  predicate NoRepeats(txs: seq<Tx>) {
    forall i, j :: 0 <= i < j < |txs| ==> txs[i] != txs[j]
  }

  lemma {:induction false} MatchesDistinct(shortId: nat -> nat, txs: seq<Tx>, id: nat)
    requires NoRepeats(txs)
    ensures NoRepeats(Matches(shortId, txs, id))
  {
    if txs != [] {
      var n := |txs| - 1;
      MatchesDistinct(shortId, txs[..n], id);
      assert txs[n] !in txs[..n];
    }
  }

  lemma OnlyOne(r: seq<Tx>, tx: Tx)
    requires tx in r && forall x :: x in r ==> x == tx
    ensures NoRepeats(r) ==> r == [tx]
  {
    assert r[0] in r;
    if |r| > 1 {
      assert r[1] in r;
      assert r[0] == r[1];
    }
  }

  /** The one match of a transaction that is in the pool. */
  lemma MatchInPool(shortId: nat -> nat, pool: seq<Tx>, tx: Tx)
    requires NoRepeats(pool) && tx in pool
    requires forall x :: x in pool && shortId(x.hash) == shortId(tx.hash) ==> x == tx
    ensures Matches(shortId, pool, shortId(tx.hash)) == [tx]
  {
    var r := Matches(shortId, pool, shortId(tx.hash));
    MatchesDistinct(shortId, pool, shortId(tx.hash));
    assert forall x :: x in r <==> x in pool && shortId(x.hash) == shortId(tx.hash);
    hide Matches, NoRepeats;
    OnlyOne(r, tx);
  }

  /** A transaction of the block that is in the pool gets its slot. */
  lemma InPoolAvailable(shortId: nat -> nat, vtx: seq<Tx>, maxCount: nat, evenBuckets: bool, pool: seq<Tx>, extra: seq<Tx>,
                        i: nat)
    requires vtx != [] && !vtx[0].isNull && NoCollision(shortId, vtx, Known(pool, extra))
    requires InitData(shortId, Announce(shortId, vtx), maxCount, evenBuckets, pool, extra).0 == OK
    requires NoRepeats(pool) && 0 < i < |vtx| && vtx[i] in pool
    ensures var slots := InitData(shortId, Announce(shortId, vtx), maxCount, evenBuckets, pool, extra).1;
            i < |slots| && slots[i] == Some(vtx[i])
  {
    var c := Announce(shortId, vtx);
    AnnouncedLayout(shortId, vtx);
    assert c.shortIds[i - 1] == shortId(vtx[i].hash);
    hide InitData, Prefill, ShortSlot, Matches, Complete, Position;
    SlotHolds(shortId, c, maxCount, evenBuckets, pool, extra, i - 1);
    MatchInPool(shortId, pool, vtx[i]);
  }

  lemma FullBlock(vtx: seq<Tx>, slots: Slots, check: seq<Tx> -> CheckResult)
    requires |slots| == |vtx| && forall i :: 0 <= i < |slots| ==> slots[i] == Some(vtx[i])
    ensures Missing(slots, |slots|) == 0 && FillBlock(slots, [], check) == (StatusOf(check(vtx)), vtx)
  {
    hide FillBlock;
    NoneMissing(slots, |slots|);
    FillBlockIs(slots, [], check);
    assert FillBlock(slots, [], check).1 == vtx;
  }

  /** If the pool holds the whole block and nothing at hand collides, nothing is asked for and the block is rebuilt. */
  lemma NothingMissing(shortId: nat -> nat, vtx: seq<Tx>, maxCount: nat, evenBuckets: bool, pool: seq<Tx>, extra: seq<Tx>,
                       check: seq<Tx> -> CheckResult)
    requires vtx != [] && !vtx[0].isNull && NoCollision(shortId, vtx, Known(pool, extra))
    requires InitData(shortId, Announce(shortId, vtx), maxCount, evenBuckets, pool, extra).0 == OK
    requires NoRepeats(pool) && forall i :: 0 < i < |vtx| ==> vtx[i] in pool
    ensures var slots := InitData(shortId, Announce(shortId, vtx), maxCount, evenBuckets, pool, extra).1;
            && |slots| == |vtx| && Missing(slots, |slots|) == 0
            && FillBlock(slots, [], check) == (StatusOf(check(vtx)), vtx)
  {
    var c := Announce(shortId, vtx);
    var slots := InitData(shortId, c, maxCount, evenBuckets, pool, extra).1;
    HonestSlots(shortId, vtx, maxCount, evenBuckets, pool, extra);
    AnnouncedLayout(shortId, vtx);
    InitDataOk(shortId, c, maxCount, evenBuckets, pool, extra);
    hide InitData, Prefill, ShortSlot, Position, FillBlock, Missing, NoCollision, NoRepeats, SentAlong, Announced;
    assert slots[Position(c, 0)].Some?;
    forall i | 0 < i < |slots| ensures slots[i] == Some(vtx[i]) {
      InPoolAvailable(shortId, vtx, maxCount, evenBuckets, pool, extra, i);
    }
    FullBlock(vtx, slots, check);
  }

  lemma {:induction false} NoneMissing(slots: Slots, n: nat)
    requires n <= |slots| && forall i :: 0 <= i < n ==> slots[i].Some?
    ensures Missing(slots, n) == 0
  {
    if n > 0 { NoneMissing(slots, n - 1); }
  }
}
