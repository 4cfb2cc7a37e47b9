/**
  Compact blocks (src/blockencodings.cpp): a block announced by short transaction ids, and its
  reconstruction from the memory pool and the transactions still missing.
 */
module CompactBlocks {

  import opened Collections

  datatype Tx = Tx(hash: nat, body: nat, isNull: bool)

  /** A transaction sent along; `index` counts from the one before it. */
  datatype Prefilled = Prefilled(index: nat, tx: Tx)

  datatype Announcement = Announcement(headerNull: bool, shortIds: seq<nat>, prefilled: seq<Prefilled>)

  const MAX_INDEX := 65535

  /** A 16-bit number. */
  type Index = n: nat | n <= MAX_INDEX

  /** What deserialization lets through: slot numbers fit 16 bits (src/blockencodings.h:117-119). */
  predicate Received(c: Announcement) { |c.shortIds| + |c.prefilled| <= MAX_INDEX }

  /** The constructor from a block: the first transaction is sent along, the others by short id. */
  function Announce(shortId: nat -> nat, vtx: seq<Tx>): Announcement
    requires vtx != []
  {
    Announcement(false, ShortIds(shortId, vtx[1..]), [Prefilled(0, vtx[0])])
  }

  function ShortIds(shortId: nat -> nat, txs: seq<Tx>): (r: seq<nat>)
    ensures |r| == |txs| && forall i :: 0 <= i < |r| ==> r[i] == shortId(txs[i].hash)
  {
    if txs == [] then [] else [shortId(txs[0].hash)] + ShortIds(shortId, txs[1..])
  }

  type Slots = seq<Option<Tx>>

  // ---------- the transactions sent along ----------

  /** The first loop of `InitData` after `n` turns: the slots and the last index filled; nothing if invalid. */
  function Prefill(c: Announcement, n: nat): (r: Option<(Slots, int)>)
    requires n <= |c.prefilled|
    ensures r.Some? ==> |r.value.0| == |c.shortIds| + |c.prefilled| && -1 <= r.value.1 < |c.shortIds| + n
    ensures r.Some? ==> forall i :: r.value.1 < i < |r.value.0| ==> r.value.0[i].None?
    ensures r.Some? ==> Missing(r.value.0, |r.value.0|) == |c.shortIds| + |c.prefilled| - n
  {
    if n == 0 then
      var none := seq(|c.shortIds| + |c.prefilled|, _ => None);
      MissingAll(none, |none|);
      Some((none, -1))
    else
      var before := Prefill(c, n - 1);
      if before.None? then None
      else
        var (slots, last) := before.value;
        var p := c.prefilled[n - 1];
        var next := last + p.index + 1;
        if p.tx.isNull || next > MAX_INDEX || next > |c.shortIds| + (n - 1) then None
        else
          MissingSet(slots, next, p.tx, |slots|);
          Some((slots[next := Some(p.tx)], next))
  }

  /** How many of the first `n` slots are empty. */
  function Missing(slots: Slots, n: nat): nat
    requires n <= |slots|
  {
    if n == 0 then 0 else Missing(slots, n - 1) + if slots[n - 1].None? then 1 else 0
  }

  lemma {:induction false} MissingAll(slots: Slots, n: nat)
    requires n <= |slots| && forall i :: 0 <= i < n ==> slots[i].None?
    ensures Missing(slots, n) == n
  {
    if n > 0 { MissingAll(slots, n - 1); }
  }

  lemma {:induction false} MissingSet(slots: Slots, at: nat, tx: Tx, n: nat)
    requires at < |slots| && n <= |slots| && slots[at].None?
    ensures Missing(slots[at := Some(tx)], n) == Missing(slots, n) - if at < n then 1 else 0
  {
    if n > 0 { MissingSet(slots, at, tx, n - 1); }
  }

  // ---------- the slots left for short ids ----------

  /** The empty slots below `n`, in order. */
  function FreeSlots(slots: Slots, n: nat): (r: seq<nat>)
    requires n <= |slots|
    ensures |r| == Missing(slots, n) && forall k :: 0 <= k < |r| ==> r[k] < n && slots[r[k]].None?
    ensures forall j, k :: 0 <= j < k < |r| ==> r[j] < r[k]
  {
    if n == 0 then [] else FreeSlots(slots, n - 1) + if slots[n - 1].None? then [n - 1] else []
  }

  /** The map from the first `n` short ids to their slots. */
  function IdMap(ids: seq<nat>, free: seq<nat>, n: nat): map<nat, nat>
    requires n <= |ids| == |free|
  {
    if n == 0 then map[] else IdMap(ids, free, n - 1)[ids[n - 1] := free[n - 1]]
  }

  lemma {:induction false} IdMapFits(ids: seq<nat>, free: seq<nat>, n: nat, bound: nat)
    requires n <= |ids| == |free| && forall i :: 0 <= i < |free| ==> free[i] < bound
    ensures forall id :: id in IdMap(ids, free, n) ==> IdMap(ids, free, n)[id] < bound
  {
    if n > 0 { IdMapFits(ids, free, n - 1, bound); }
  }

  // ---------- looking through transactions at hand ----------

  /** `txn_available`, `have_txn` and `mempool_count`. */
  datatype Scan = Scan(slots: Slots, have: seq<bool>, count: int)

  predicate Fits(ids: map<nat, nat>, s: Scan) {
    |s.slots| == |s.have| && forall id :: id in ids ==> ids[id] < |s.slots|
  }

  /** One transaction from the pool; a second match for a slot clears it. */
  function PoolStep(ids: map<nat, nat>, id: nat, tx: Tx, s: Scan): (t: Scan)
    requires Fits(ids, s)
    ensures Fits(ids, t) && |t.slots| == |s.slots|
  {
    if id !in ids then s
    else
      var slot := ids[id];
      if !s.have[slot] then Scan(s.slots[slot := Some(tx)], s.have[slot := true], s.count + 1)
      else if s.slots[slot].Some? then s.(slots := s.slots[slot := None], count := s.count - 1)
      else s
  }

  /** One extra transaction; a second match clears the slot only if it is another transaction. */
  function ExtraStep(ids: map<nat, nat>, id: nat, tx: Tx, s: Scan): (t: Scan)
    requires Fits(ids, s)
    ensures Fits(ids, t) && |t.slots| == |s.slots|
  {
    if id !in ids then s
    else
      var slot := ids[id];
      if !s.have[slot] then Scan(s.slots[slot := Some(tx)], s.have[slot := true], s.count + 1)
      else if s.slots[slot].Some? && s.slots[slot].value.hash != tx.hash then
        s.(slots := s.slots[slot := None], count := s.count - 1)
      else s
  }

  /** Either loop from `k` on; both stop once every short id has a transaction. */
  function ScanFrom(shortId: nat -> nat, ids: map<nat, nat>, txs: seq<Tx>, extra: bool, k: nat, s: Scan): (t: Scan)
    requires k <= |txs| && Fits(ids, s)
    ensures Fits(ids, t) && |t.slots| == |s.slots|
    decreases |txs| - k
  {
    if k == |txs| then s
    else
      var id := shortId(txs[k].hash);
      var t := if extra then ExtraStep(ids, id, txs[k], s) else PoolStep(ids, id, txs[k], s);
      if t.count == |ids| then t else ScanFrom(shortId, ids, txs, extra, k + 1, t)
  }

  datatype Status = OK | INVALID | FAILED | CHECKBLOCK_FAILED

  /**
    `InitData`: the status, and the slots and counter that it leaves. `maxCount` is the most transactions a
    block can hold; `evenBuckets` says whether no bucket of the hash map overflowed.
   */
  function InitData(shortId: nat -> nat, c: Announcement, maxCount: nat, evenBuckets: bool, pool: seq<Tx>, extra: seq<Tx>)
    : (Status, Slots, int)
  {
    if c.headerNull || (c.shortIds == [] && c.prefilled == []) || |c.shortIds| + |c.prefilled| > maxCount then (INVALID, [], 0)
    else
      var filled := Prefill(c, |c.prefilled|);
      if filled.None? then (INVALID, [], 0)
      else
        var slots := filled.value.0;
        var free := FreeSlots(slots, |slots|);
        if !evenBuckets then (FAILED, [], 0)
        else
          var ids := IdMap(c.shortIds, free, |c.shortIds|);
          if |ids| != |c.shortIds| then (FAILED, [], 0)
          else
            IdMapFits(c.shortIds, free, |c.shortIds|, |slots|);
            var s0 := Scan(slots, seq(|slots|, _ => false), 0);
            var s1 := ScanFrom(shortId, ids, pool, false, 0, s0);
            var s2 := ScanFrom(shortId, ids, extra, true, 0, s1);
            (OK, s2.slots, s2.count)
  }

  /** A message is deserialized, which may refuse it, and then taken in. */
  function Deliver(shortId: nat -> nat, c: Announcement, maxCount: nat, evenBuckets: bool, pool: seq<Tx>, extra: seq<Tx>)
    : Option<(Status, Slots, int)>
  {
    if Received(c) then Some(InitData(shortId, c, maxCount, evenBuckets, pool, extra)) else None
  }

  // ---------- filling the block ----------

  /** The transactions of the first `n` slots, the empty ones filled from `missing` in order. */
  function Filled(slots: Slots, missing: seq<Tx>, n: nat): Option<seq<Tx>>
    requires n <= |slots|
  {
    if n == 0 then Some([])
    else
      var before := Filled(slots, missing, n - 1);
      if before.None? then None
      else if slots[n - 1].Some? then Some(before.value + [slots[n - 1].value])
      else
        var at := Missing(slots, n - 1);
        if at < |missing| then Some(before.value + [missing[at]]) else None
  }

  datatype CheckResult = Passed | Mutated | Rejected

  /** `FillBlock`; `check` is what `CheckBlock` makes of the transactions. */
  function FillBlock(slots: Slots, missing: seq<Tx>, check: seq<Tx> -> CheckResult): (Status, seq<Tx>) {
    var vtx := Filled(slots, missing, |slots|);
    if vtx.None? then (INVALID, [])
    else if |missing| != Missing(slots, |slots|) then (INVALID, vtx.value)
    else match check(vtx.value)
      case Passed => (OK, vtx.value)
      case Mutated => (FAILED, vtx.value)
      case Rejected => (CHECKBLOCK_FAILED, vtx.value)
  }
}
