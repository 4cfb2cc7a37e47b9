/** What a reconstructed compact block holds, and that an honest announcement is rebuilt. */
module CompactBlocksProofs {

  import opened Collections
  import opened CompactBlocks

  // ---------- where things go ----------

  /** The slot of the `k`th transaction sent along. */
  function Position(c: Announcement, k: nat): int
    requires k < |c.prefilled|
  {
    (if k == 0 then -1 else Position(c, k - 1)) + c.prefilled[k].index + 1
  }

  lemma {:induction false} PositionsAscend(c: Announcement, j: nat, k: nat)
    requires j < k < |c.prefilled|
    ensures 0 <= Position(c, j) < Position(c, k)
  {
    if j < k - 1 { PositionsAscend(c, j, k - 1); } else { PositionNatural(c, j); }
  }

  lemma {:induction false} PositionNatural(c: Announcement, k: nat)
    requires k < |c.prefilled|
    ensures Position(c, k) >= 0
  {
    if k > 0 { PositionNatural(c, k - 1); }
  }

  /** Exactly the transactions sent along are in their slots. */
  ghost predicate HoldsPrefilled(c: Announcement, slots: Slots, n: nat)
    requires n <= |c.prefilled|
  {
    && (forall k :: 0 <= k < n ==> 0 <= Position(c, k) < |slots| && slots[Position(c, k)] == Some(c.prefilled[k].tx))
    && (forall i :: 0 <= i < |slots| && slots[i].Some? ==> exists k :: 0 <= k < n && Position(c, k) == i)
  }

  lemma PutPrefilled(c: Announcement, slots: Slots, n: nat)
    requires 0 < n <= |c.prefilled| && HoldsPrefilled(c, slots, n - 1) && 0 <= Position(c, n - 1) < |slots|
    ensures HoldsPrefilled(c, slots[Position(c, n - 1) := Some(c.prefilled[n - 1].tx)], n)
  {
    var next := Position(c, n - 1);
    var now := slots[next := Some(c.prefilled[n - 1].tx)];
    forall k | 0 <= k < n - 1 ensures Position(c, k) < next { PositionsAscend(c, k, n - 1); }
    hide Position;
    forall i | 0 <= i < |now| && now[i].Some? ensures exists k :: 0 <= k < n && Position(c, k) == i {
      if i != next {
        var k :| 0 <= k < n - 1 && Position(c, k) == i;
      }
    }
  }

  lemma {:induction false} PrefillIs(c: Announcement, n: nat)
    requires n <= |c.prefilled| && Prefill(c, n).Some?
    ensures HoldsPrefilled(c, Prefill(c, n).value.0, n)
    ensures Prefill(c, n).value.1 == if n == 0 then -1 else Position(c, n - 1)
  {
    if n > 0 {
      PrefillIs(c, n - 1);
      var slots, last := Prefill(c, n - 1).value.0, Prefill(c, n - 1).value.1;
      hide HoldsPrefilled;
      assert Position(c, n - 1) == last + c.prefilled[n - 1].index + 1;
      hide Position, Missing;
      PutPrefilled(c, slots, n);
    }
  }

  /** The `k`th transaction sent along is one, and its slot exists, fits 16 bits and leaves room for the short ids. */
  predicate WellPlaced(c: Announcement, k: nat)
    requires k < |c.prefilled|
  {
    !c.prefilled[k].tx.isNull && Position(c, k) <= 65535 && Position(c, k) <= |c.shortIds| + k
  }

  lemma PrefillNext(c: Announcement, n: nat)
    requires 0 < n <= |c.prefilled|
    ensures Prefill(c, n).Some? <==> Prefill(c, n - 1).Some? && WellPlaced(c, n - 1)
  {
    if Prefill(c, n - 1).Some? {
      PrefillIs(c, n - 1);
      hide HoldsPrefilled, Missing;
      assert Position(c, n - 1) == Prefill(c, n - 1).value.1 + c.prefilled[n - 1].index + 1;
    }
  }

  lemma {:induction false} PrefillIff(c: Announcement, n: nat)
    requires n <= |c.prefilled|
    ensures Prefill(c, n).Some? <==> forall k :: 0 <= k < n ==> WellPlaced(c, k)
  {
    if n > 0 {
      hide Prefill, WellPlaced;
      PrefillIff(c, n - 1);
      PrefillNext(c, n);
    }
  }

  // ---------- the map of short ids ----------

  lemma {:induction false} IdMapSize(ids: seq<nat>, free: seq<nat>, n: nat)
    requires n <= |ids| == |free|
    ensures |IdMap(ids, free, n)| <= n && forall i :: 0 <= i < n ==> ids[i] in IdMap(ids, free, n)
  {
    if n > 0 {
      IdMapSize(ids, free, n - 1);
      PutSize(IdMap(ids, free, n - 1), ids[n - 1], free[n - 1]);
    }
  }

  lemma {:induction false} IdMapFrom(ids: seq<nat>, free: seq<nat>, n: nat, id: nat) returns (i: nat)
    requires n <= |ids| == |free| && id in IdMap(ids, free, n)
    ensures i < n && ids[i] == id
  {
    if ids[n - 1] == id { i := n - 1; } else { i := IdMapFrom(ids, free, n - 1, id); }
  }

  /** If no short id occurs twice, each is mapped to its own slot. */
  lemma {:induction false} IdMapIs(ids: seq<nat>, free: seq<nat>, n: nat)
    requires n <= |ids| == |free| && |IdMap(ids, free, n)| == n
    ensures forall i :: 0 <= i < n ==> ids[i] in IdMap(ids, free, n) && IdMap(ids, free, n)[ids[i]] == free[i]
    ensures forall i, j :: 0 <= i < j < n ==> ids[i] != ids[j]
  {
    if n > 0 {
      IdMapSize(ids, free, n - 1);
      var before, now := IdMap(ids, free, n - 1), IdMap(ids, free, n);
      assert now == before[ids[n - 1] := free[n - 1]];
      hide IdMap;
      PutSize(before, ids[n - 1], free[n - 1]);
      assert ids[n - 1] !in before;
      IdMapIs(ids, free, n - 1);
      forall i | 0 <= i < n ensures ids[i] in now && now[ids[i]] == free[i] {
        if i < n - 1 { assert ids[i] in before; }
      }
      forall i, j | 0 <= i < j < n ensures ids[i] != ids[j] {
        if j == n - 1 { assert ids[i] in before; }
      }
    }
  }

  lemma PutSize(m: map<nat, nat>, k: nat, v: nat)
    ensures |m[k := v]| == |m| + if k in m then 0 else 1
  {
    if k in m { assert m[k := v].Keys == m.Keys; } else { assert m[k := v].Keys == m.Keys + {k}; }
  }

  ghost predicate OneToOne(ids: map<nat, nat>) {
    forall a, b :: a in ids && b in ids && ids[a] == ids[b] ==> a == b
  }

  lemma IdMapOneToOne(ids: seq<nat>, free: seq<nat>)
    requires |ids| == |free| && |IdMap(ids, free, |ids|)| == |ids| && forall j, k :: 0 <= j < k < |free| ==> free[j] < free[k]
    ensures OneToOne(IdMap(ids, free, |ids|))
  {
    hide IdMap;
    IdMapIs(ids, free, |ids|);
    var m := IdMap(ids, free, |ids|);
    forall a, b | a in m && b in m && m[a] == m[b] ensures a == b {
      var i := IdMapFrom(ids, free, |ids|, a);
      var j := IdMapFrom(ids, free, |ids|, b);
      assert free[i] == free[j];
    }
  }

  // ---------- the scans ----------

  /** The short ids that have a transaction at the moment. */
  function Found(ids: map<nat, nat>, slots: Slots): set<nat> {
    set id | id in ids && ids[id] < |slots| && slots[ids[id]].Some?
  }

  /** Other slots are as before; a transaction in a slot is a known one that carries the id of the slot. */
  ghost predicate Scanned(shortId: nat -> nat, ids: map<nat, nat>, base: Slots, known: set<Tx>, s: Scan) {
    && Fits(ids, s) && |s.slots| == |base|
    && (forall i :: 0 <= i < |base| && (forall id :: id in ids ==> ids[id] != i) ==> s.slots[i] == base[i])
    && (forall id :: id in ids && s.slots[ids[id]].Some? ==>
          s.have[ids[id]] && shortId(s.slots[ids[id]].value.hash) == id && s.slots[ids[id]].value in known)
    && s.count == |Found(ids, s.slots)|
  }

  lemma FoundSet(ids: map<nat, nat>, slots: Slots, id: nat, v: Option<Tx>)
    requires OneToOne(ids) && id in ids && ids[id] < |slots|
    ensures Found(ids, slots[ids[id] := v]) == if v.Some? then Found(ids, slots) + {id} else Found(ids, slots) - {id}
  {
    var expected := if v.Some? then Found(ids, slots) + {id} else Found(ids, slots) - {id};
    forall x ensures x in Found(ids, slots[ids[id] := v]) <==> x in expected {
      if x in ids && x != id { assert ids[x] != ids[id]; }
    }
  }

  /** A free slot takes the transaction. */
  lemma TakeKeeps(shortId: nat -> nat, ids: map<nat, nat>, base: Slots, known: set<Tx>, s: Scan, tx: Tx)
    requires Scanned(shortId, ids, base, known, s) && OneToOne(ids) && tx in known
    requires shortId(tx.hash) in ids && !s.have[ids[shortId(tx.hash)]]
    ensures var slot := ids[shortId(tx.hash)];
            Scanned(shortId, ids, base, known, Scan(s.slots[slot := Some(tx)], s.have[slot := true], s.count + 1))
  {
    var id := shortId(tx.hash);
    FoundSet(ids, s.slots, id, Some(tx));
    assert id !in Found(ids, s.slots);
    hide Found;
  }

  /** A second match empties it. */
  lemma ClearKeeps(shortId: nat -> nat, ids: map<nat, nat>, base: Slots, known: set<Tx>, s: Scan, id: nat)
    requires Scanned(shortId, ids, base, known, s) && OneToOne(ids) && id in ids && s.slots[ids[id]].Some?
    ensures Scanned(shortId, ids, base, known, s.(slots := s.slots[ids[id] := None], count := s.count - 1))
  {
    FoundSet(ids, s.slots, id, None);
    assert id in Found(ids, s.slots);
    hide Found;
  }

  lemma StepKeeps(shortId: nat -> nat, ids: map<nat, nat>, base: Slots, known: set<Tx>, s: Scan, tx: Tx, extra: bool)
    requires Scanned(shortId, ids, base, known, s) && OneToOne(ids) && tx in known
    ensures var id := shortId(tx.hash);
            Scanned(shortId, ids, base, known, if extra then ExtraStep(ids, id, tx, s) else PoolStep(ids, id, tx, s))
  {
    assert Fits(ids, s);
    hide Scanned, OneToOne;
    var id := shortId(tx.hash);
    if id in ids {
      if !s.have[ids[id]] {
        TakeKeeps(shortId, ids, base, known, s, tx);
      } else if s.slots[ids[id]].Some? {
        ClearKeeps(shortId, ids, base, known, s, id);
      }
    }
  }

  lemma {:induction false} ScanKeeps(shortId: nat -> nat, ids: map<nat, nat>, base: Slots, known: set<Tx>, txs: seq<Tx>,
                                     extra: bool, k: nat, s: Scan)
    requires k <= |txs| && Scanned(shortId, ids, base, known, s) && OneToOne(ids)
    requires forall i :: 0 <= i < |txs| ==> txs[i] in known
    ensures Scanned(shortId, ids, base, known, ScanFrom(shortId, ids, txs, extra, k, s))
    decreases |txs| - k
  {
    if k < |txs| {
      StepKeeps(shortId, ids, base, known, s, txs[k], extra);
      hide Scanned, PoolStep, ExtraStep;
      var id := shortId(txs[k].hash);
      var t := if extra then ExtraStep(ids, id, txs[k], s) else PoolStep(ids, id, txs[k], s);
      if t.count != |ids| { ScanKeeps(shortId, ids, base, known, txs, extra, k + 1, t); }
    }
  }

  // ---------- what `InitData` leaves ----------

  /** The slot of the `j`th short id. */
  function ShortSlot(c: Announcement, j: nat): nat
    requires Prefill(c, |c.prefilled|).Some? && j < |c.shortIds|
  {
    var slots := Prefill(c, |c.prefilled|).value.0;
    FreeSlots(slots, |slots|)[j]
  }

  ghost predicate SentAlong(c: Announcement, i: nat, tx: Tx) {
    exists k :: 0 <= k < |c.prefilled| && Position(c, k) == i && c.prefilled[k].tx == tx
  }

  ghost predicate Announced(shortId: nat -> nat, c: Announcement, known: set<Tx>, i: nat, tx: Tx)
    requires Prefill(c, |c.prefilled|).Some?
  {
    tx in known && exists j :: 0 <= j < |c.shortIds| && ShortSlot(c, j) == i && c.shortIds[j] == shortId(tx.hash)
  }

  function Known(pool: seq<Tx>, extra: seq<Tx>): set<Tx> {
    (set tx | tx in pool) + (set tx | tx in extra)
  }

  lemma NothingFound(ids: map<nat, nat>, slots: Slots)
    requires forall id :: id in ids ==> ids[id] < |slots| && slots[ids[id]].None?
    ensures Found(ids, slots) == {}
  {
  }

  /** The ids point at slots that nothing was sent along for. */
  lemma {:induction false} IdsFree(ids: seq<nat>, free: seq<nat>, slots: Slots, n: nat)
    requires n <= |ids| == |free| && forall k :: 0 <= k < |free| ==> free[k] < |slots| && slots[free[k]].None?
    ensures forall id :: id in IdMap(ids, free, n) ==>
            IdMap(ids, free, n)[id] < |slots| && slots[IdMap(ids, free, n)[id]].None?
  {
    if n > 0 { IdsFree(ids, free, slots, n - 1); }
  }

  lemma FirstScan(shortId: nat -> nat, ids: seq<nat>, free: seq<nat>, slots: Slots, known: set<Tx>)
    requires |ids| == |free| && forall k :: 0 <= k < |free| ==> free[k] < |slots| && slots[free[k]].None?
    ensures Scanned(shortId, IdMap(ids, free, |ids|), slots, known, Scan(slots, seq(|slots|, _ => false), 0))
  {
    IdsFree(ids, free, slots, |ids|);
    NothingFound(IdMap(ids, free, |ids|), slots);
  }

  /** The state after both scans of an announcement that was accepted. */
  lemma ScansOk(shortId: nat -> nat, c: Announcement, maxCount: nat, evenBuckets: bool, pool: seq<Tx>, extra: seq<Tx>)
    returns (s: Scan)
    requires InitData(shortId, c, maxCount, evenBuckets, pool, extra).0 == OK
    ensures Prefill(c, |c.prefilled|).Some?
    ensures var slots := Prefill(c, |c.prefilled|).value.0;
            var ids := IdMap(c.shortIds, FreeSlots(slots, |slots|), |c.shortIds|);
            && |ids| == |c.shortIds| && OneToOne(ids) && Scanned(shortId, ids, slots, Known(pool, extra), s)
            && InitData(shortId, c, maxCount, evenBuckets, pool, extra) == (OK, s.slots, s.count)
  {
    var slots := Prefill(c, |c.prefilled|).value.0;
    var free := FreeSlots(slots, |slots|);
    var ids := IdMap(c.shortIds, free, |c.shortIds|);
    IdMapOneToOne(c.shortIds, free);
    IdMapFits(c.shortIds, free, |c.shortIds|, |slots|);
    FirstScan(shortId, c.shortIds, free, slots, Known(pool, extra));
    hide Prefill, IdMap, FreeSlots, Missing, Scanned, OneToOne, PoolStep, ExtraStep;
    var s0 := Scan(slots, seq(|slots|, _ => false), 0);
    ScanKeeps(shortId, ids, slots, Known(pool, extra), pool, false, 0, s0);
    var s1 := ScanFrom(shortId, ids, pool, false, 0, s0);
    ScanKeeps(shortId, ids, slots, Known(pool, extra), extra, true, 0, s1);
    s := ScanFrom(shortId, ids, extra, true, 0, s1);
  }

  /**
    On acceptance there is a slot for every transaction; what was sent along is in its own slot; and
    whatever else is available carries the short id announced for its slot.
   */
  lemma InitDataOk(shortId: nat -> nat, c: Announcement, maxCount: nat, evenBuckets: bool, pool: seq<Tx>, extra: seq<Tx>)
    requires InitData(shortId, c, maxCount, evenBuckets, pool, extra).0 == OK
    ensures Prefill(c, |c.prefilled|).Some?
    ensures var slots := InitData(shortId, c, maxCount, evenBuckets, pool, extra).1;
            && |slots| == |c.shortIds| + |c.prefilled|
            && (forall k :: 0 <= k < |c.prefilled| ==>
                  0 <= Position(c, k) < |slots| && slots[Position(c, k)] == Some(c.prefilled[k].tx))
            && (forall i :: 0 <= i < |slots| && slots[i].Some? ==>
                  SentAlong(c, i, slots[i].value) || Announced(shortId, c, Known(pool, extra), i, slots[i].value))
  {
    var s := ScansOk(shortId, c, maxCount, evenBuckets, pool, extra);
    PrefillIs(c, |c.prefilled|);
    var base := Prefill(c, |c.prefilled|).value.0;
    IdsFree(c.shortIds, FreeSlots(base, |base|), base, |c.shortIds|);
    hide InitData, Prefill, IdMap, FreeSlots, Missing, Position, OneToOne, Found;
    var ids := IdMap(c.shortIds, FreeSlots(base, |base|), |c.shortIds|);
    forall i | 0 <= i < |s.slots| && s.slots[i].Some?
      ensures SentAlong(c, i, s.slots[i].value) || Announced(shortId, c, Known(pool, extra), i, s.slots[i].value)
    {
      if id :| id in ids && ids[id] == i {
        var j := IdMapFrom(c.shortIds, FreeSlots(base, |base|), |c.shortIds|, id);
        IdMapIs(c.shortIds, FreeSlots(base, |base|), |c.shortIds|);
        assert ShortSlot(c, j) == i;
      } else {
        var k :| 0 <= k < |c.prefilled| && Position(c, k) == i;
      }
    }
  }

  predicate AllDiffer(ids: seq<nat>) {
    forall i, j :: 0 <= i < j < |ids| ==> ids[i] != ids[j]
  }

  /** The size, or a transaction sent along, makes the message invalid. */
  ghost predicate Malformed(c: Announcement, maxCount: nat) {
    || c.headerNull
    || !(0 < |c.shortIds| + |c.prefilled| <= maxCount)
    || exists k :: 0 <= k < |c.prefilled| && !WellPlaced(c, k)
  }

  /** The status for every message: invalid exactly if malformed, else OK exactly if short ids differ and buckets are even. */
  lemma InitDataStatus(shortId: nat -> nat, c: Announcement, maxCount: nat, evenBuckets: bool, pool: seq<Tx>, extra: seq<Tx>)
    ensures InitData(shortId, c, maxCount, evenBuckets, pool, extra).0 ==
            if Malformed(c, maxCount) then INVALID else if evenBuckets && AllDiffer(c.shortIds) then OK else FAILED
  {
    PrefillIff(c, |c.prefilled|);
    hide Prefill, WellPlaced, FreeSlots, Missing, IdMap, ScanFrom;
    if Prefill(c, |c.prefilled|).Some? {
      var slots := Prefill(c, |c.prefilled|).value.0;
      var free := FreeSlots(slots, |slots|);
      if AllDiffer(c.shortIds) {
        IdMapFull(c.shortIds, free, |c.shortIds|);
      } else if |IdMap(c.shortIds, free, |c.shortIds|)| == |c.shortIds| {
        IdMapIs(c.shortIds, free, |c.shortIds|);
      }
    }
  }

  /** The slots of short ids in a message that was let through fit 16 bits. */
  lemma SlotsFit(c: Announcement, j: nat)
    requires Received(c) && Prefill(c, |c.prefilled|).Some? && j < |c.shortIds|
    ensures ShortSlot(c, j) <= MAX_INDEX
  {
    hide Prefill, FreeSlots, Missing;
  }

  // ---------- filling the block ----------

  function StatusOf(result: CheckResult): Status {
    match result
    case Passed => OK
    case Mutated => FAILED
    case Rejected => CHECKBLOCK_FAILED
  }

  /** For any slots: the block is filled exactly if as many transactions come as there are empty slots. */
  lemma {:induction false} FilledIff(slots: Slots, missing: seq<Tx>, n: nat)
    requires n <= |slots|
    ensures Filled(slots, missing, n).Some? <==> Missing(slots, n) <= |missing|
    ensures Filled(slots, missing, n).Some? ==>
              |Filled(slots, missing, n).value| == n
              && forall i :: 0 <= i < n && slots[i].Some? ==> Filled(slots, missing, n).value[i] == slots[i].value
  {
    if n > 0 { FilledIff(slots, missing, n - 1); }
  }

  lemma {:induction false} FilledAt(slots: Slots, missing: seq<Tx>, n: nat, i: nat)
    requires i < n <= |slots| && Filled(slots, missing, n).Some?
    ensures |Filled(slots, missing, n).value| == n
    ensures slots[i].None? ==> Missing(slots, i) < |missing|
    ensures Filled(slots, missing, n).value[i] == if slots[i].Some? then slots[i].value else missing[Missing(slots, i)]
  {
    FilledIff(slots, missing, n);
    if i < n - 1 { FilledAt(slots, missing, n - 1, i); } else { FilledIff(slots, missing, n - 1); }
  }

  /**
    `FillBlock` is invalid exactly if too few or too many transactions come. Otherwise available ones stay in
    place, the others fill the empty slots in order, and the status is the verdict on the block.
   */
  lemma FillBlockIs(slots: Slots, missing: seq<Tx>, check: seq<Tx> -> CheckResult)
    ensures var (status, vtx) := FillBlock(slots, missing, check);
            && (status == INVALID <==> |missing| != Missing(slots, |slots|))
            && (status != INVALID ==>
                  && |vtx| == |slots| && status == StatusOf(check(vtx))
                  && (forall i :: 0 <= i < |slots| && slots[i].None? ==>
                        Missing(slots, i) < |missing| && vtx[i] == missing[Missing(slots, i)])
                  && (forall i :: 0 <= i < |slots| && slots[i].Some? ==> vtx[i] == slots[i].value))
  {
    hide Filled, Missing;
    FilledIff(slots, missing, |slots|);
    if |missing| == Missing(slots, |slots|) {
      forall i | 0 <= i < |slots|
        ensures slots[i].None? ==>
                  Missing(slots, i) < |missing| && Filled(slots, missing, |slots|).value[i] == missing[Missing(slots, i)]
        ensures slots[i].Some? ==> Filled(slots, missing, |slots|).value[i] == slots[i].value
      {
        FilledAt(slots, missing, |slots|, i);
      }
    }
  }

  // ---------- rebuilding a block ----------

  /** The transactions that the sender is asked for: those of empty slots, in order. */
  function Wanted(vtx: seq<Tx>, slots: Slots, n: nat): seq<Tx>
    requires n <= |slots| == |vtx|
  {
    if n == 0 then [] else Wanted(vtx, slots, n - 1) + if slots[n - 1].None? then [vtx[n - 1]] else []
  }

  lemma {:induction false} WantedFills(vtx: seq<Tx>, slots: Slots, missing: seq<Tx>, n: nat)
    requires n <= |slots| == |vtx| && Wanted(vtx, slots, n) <= missing
    requires forall i :: 0 <= i < |slots| && slots[i].Some? ==> slots[i].value == vtx[i]
    ensures Filled(slots, missing, n) == Some(vtx[..n]) && |Wanted(vtx, slots, n)| == Missing(slots, n)
  {
    if n > 0 {
      WantedFills(vtx, slots, missing, n - 1);
      assert vtx[..n] == vtx[..n - 1] + [vtx[n - 1]];
      if slots[n - 1].None? {
        assert Wanted(vtx, slots, n)[|Wanted(vtx, slots, n - 1)|] == vtx[n - 1];
      }
    }
  }

  /** Nothing at hand has the short id of a transaction of the block without being that transaction. */
  ghost predicate NoCollision(shortId: nat -> nat, vtx: seq<Tx>, known: set<Tx>) {
    forall tx, i :: tx in known && 0 < i < |vtx| && shortId(tx.hash) == shortId(vtx[i].hash) ==> tx == vtx[i]
  }

  /** The layout of an announced block: the first transaction is sent along, short id `j` is for slot `j + 1`. */
  lemma AnnouncedLayout(shortId: nat -> nat, vtx: seq<Tx>)
    requires vtx != [] && !vtx[0].isNull
    ensures var c := Announce(shortId, vtx);
            && |c.prefilled| == 1 && |c.shortIds| == |vtx| - 1 && Prefill(c, 1).Some? && Position(c, 0) == 0
            && forall j :: 0 <= j < |c.shortIds| ==> ShortSlot(c, j) == j + 1
  {
    var c := Announce(shortId, vtx);
    assert Prefill(c, 0).Some?;
    var slots := Prefill(c, 1).value.0;
    assert slots[0].Some? && forall i :: 0 < i < |slots| ==> slots[i].None?;
    hide Prefill, Missing;
    FreeAfterFirst(slots, |slots|);
  }

  lemma {:induction false} FreeAfterFirst(slots: Slots, n: nat)
    requires 0 < n <= |slots| && slots[0].Some? && forall i :: 0 < i < |slots| ==> slots[i].None?
    ensures |FreeSlots(slots, n)| == n - 1 && forall j :: 0 <= j < n - 1 ==> FreeSlots(slots, n)[j] == j + 1
  {
    if n == 1 {
      assert FreeSlots(slots, 0) == [];
    } else {
      FreeAfterFirst(slots, n - 1);
    }
  }

  /** No two transactions after the first share a short id. */
  ghost predicate IdsDiffer(shortId: nat -> nat, vtx: seq<Tx>) {
    forall i, j :: 0 < i < j < |vtx| ==> shortId(vtx[i].hash) != shortId(vtx[j].hash)
  }

  lemma {:induction false} IdMapFull(ids: seq<nat>, free: seq<nat>, n: nat)
    requires n <= |ids| == |free| && forall i, j :: 0 <= i < j < n ==> ids[i] != ids[j]
    ensures |IdMap(ids, free, n)| == n
  {
    if n > 0 {
      IdMapFull(ids, free, n - 1);
      PutSize(IdMap(ids, free, n - 1), ids[n - 1], free[n - 1]);
      if ids[n - 1] in IdMap(ids, free, n - 1) { var i := IdMapFrom(ids, free, n - 1, ids[n - 1]); }
    }
  }

  /** Without the limit of the message format slot numbers would wrap from 65537 transactions on. */
  lemma HonestSlotsFit(shortId: nat -> nat, vtx: seq<Tx>)
    requires vtx != [] && !vtx[0].isNull
    ensures var c := Announce(shortId, vtx);
            && Prefill(c, |c.prefilled|).Some?
            && ((forall j :: 0 <= j < |c.shortIds| ==> ShortSlot(c, j) <= MAX_INDEX) <==> |vtx| <= MAX_INDEX + 1)
  {
    AnnouncedLayout(shortId, vtx);
    var c := Announce(shortId, vtx);
    hide Prefill, ShortSlot;
    if |vtx| > MAX_INDEX + 1 { assert ShortSlot(c, MAX_INDEX) == MAX_INDEX + 1; }
  }

  /**
    An honest announcement of a block of legal size is refused by deserialization exactly if it has more
    than 65535 transactions. Otherwise it is accepted exactly if its short ids differ and no bucket
    overflows, and fails if not; it is never called invalid.
   */
  lemma HonestAccepted(shortId: nat -> nat, vtx: seq<Tx>, maxCount: nat, evenBuckets: bool, pool: seq<Tx>, extra: seq<Tx>)
    requires vtx != [] && !vtx[0].isNull && |vtx| <= maxCount
    ensures var r := Deliver(shortId, Announce(shortId, vtx), maxCount, evenBuckets, pool, extra);
            && (r.None? <==> |vtx| > MAX_INDEX)
            && (r.Some? ==> r.value.0 == if evenBuckets && IdsDiffer(shortId, vtx) then OK else FAILED)
  {
    AnnouncedLayout(shortId, vtx);
    var c := Announce(shortId, vtx);
    var slots := Prefill(c, 1).value.0;
    var free := FreeSlots(slots, |slots|);
    assert forall j :: 0 <= j < |c.shortIds| ==> c.shortIds[j] == shortId(vtx[j + 1].hash);
    hide Prefill, FreeSlots, Missing, IdMap, ScanFrom;
    if IdsDiffer(shortId, vtx) {
      IdMapFull(c.shortIds, free, |c.shortIds|);
    } else if |IdMap(c.shortIds, free, |c.shortIds|)| == |c.shortIds| {
      IdMapIs(c.shortIds, free, |c.shortIds|);
    }
  }

  /** Without collisions, what is available is what the block has there. */
  lemma HonestSlots(shortId: nat -> nat, vtx: seq<Tx>, maxCount: nat, evenBuckets: bool, pool: seq<Tx>, extra: seq<Tx>)
    requires vtx != [] && !vtx[0].isNull && NoCollision(shortId, vtx, Known(pool, extra))
    requires InitData(shortId, Announce(shortId, vtx), maxCount, evenBuckets, pool, extra).0 == OK
    ensures var slots := InitData(shortId, Announce(shortId, vtx), maxCount, evenBuckets, pool, extra).1;
            |slots| == |vtx| && forall i :: 0 <= i < |slots| && slots[i].Some? ==> slots[i].value == vtx[i]
  {
    var c := Announce(shortId, vtx);
    InitDataOk(shortId, c, maxCount, evenBuckets, pool, extra);
    AnnouncedLayout(shortId, vtx);
    assert forall j :: 0 <= j < |c.shortIds| ==> c.shortIds[j] == shortId(vtx[j + 1].hash);
    hide InitData, Prefill, Position, ShortSlot;
    var slots := InitData(shortId, c, maxCount, evenBuckets, pool, extra).1;
    forall i | 0 <= i < |slots| && slots[i].Some? ensures slots[i].value == vtx[i] {
      var tx := slots[i].value;
      if SentAlong(c, i, tx) {
        assert i == 0;
      } else {
        var j :| 0 <= j < |c.shortIds| && ShortSlot(c, j) == i && c.shortIds[j] == shortId(tx.hash);
        assert i == j + 1;
      }
    }
  }

  /**
    A sender's block comes back: if the announcement is accepted and nothing at hand collides, filling in
    the transactions asked for, in order, gives the sender's list and the verdict on it.
   */
  lemma Rebuilt(shortId: nat -> nat, vtx: seq<Tx>, maxCount: nat, evenBuckets: bool, pool: seq<Tx>, extra: seq<Tx>,
                check: seq<Tx> -> CheckResult)
    requires vtx != [] && !vtx[0].isNull && NoCollision(shortId, vtx, Known(pool, extra))
    requires InitData(shortId, Announce(shortId, vtx), maxCount, evenBuckets, pool, extra).0 == OK
    ensures var slots := InitData(shortId, Announce(shortId, vtx), maxCount, evenBuckets, pool, extra).1;
            |slots| == |vtx| && FillBlock(slots, Wanted(vtx, slots, |slots|), check) == (StatusOf(check(vtx)), vtx)
  {
    HonestSlots(shortId, vtx, maxCount, evenBuckets, pool, extra);
    hide InitData, FillBlock, Wanted;
    FillsWanted(vtx, InitData(shortId, Announce(shortId, vtx), maxCount, evenBuckets, pool, extra).1, check);
  }

  lemma FillsWanted(vtx: seq<Tx>, slots: Slots, check: seq<Tx> -> CheckResult)
    requires |slots| == |vtx| && forall i :: 0 <= i < |slots| && slots[i].Some? ==> slots[i].value == vtx[i]
    ensures FillBlock(slots, Wanted(vtx, slots, |slots|), check) == (StatusOf(check(vtx)), vtx)
  {
    WantedFills(vtx, slots, Wanted(vtx, slots, |slots|), |slots|);
    assert vtx[..|slots|] == vtx;
  }
}
