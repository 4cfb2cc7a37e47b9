/** `PartiallyDownloadedBlock` as an object (src/blockencodings.cpp); its loops compute what `CompactBlocks` says. */
module CompactBlocksObject {

  import opened Collections
  import opened CompactBlocks
  import C = CompactBlocks
  import P = CompactBlocksProofs

  class PartiallyDownloadedBlock {
    var headerNull: bool
    var txnAvailable: Slots
    var prefilledCount: nat
    var mempoolCount: int

    constructor ()
      ensures headerNull && txnAvailable == [] && mempoolCount == 0
    {
      headerNull, txnAvailable, prefilledCount, mempoolCount := true, [], 0, 0;
    }

    /** The first loop of `InitData`. */
    method PutPrefilled(c: Announcement) returns (ok: bool)
      requires |txnAvailable| == |c.shortIds| + |c.prefilled| && forall i :: 0 <= i < |txnAvailable| ==> txnAvailable[i].None?
      modifies this`txnAvailable
      ensures ok == Prefill(c, |c.prefilled|).Some?
      ensures ok ==> txnAvailable == Prefill(c, |c.prefilled|).value.0
    {
      hide Missing;
      var last: int := -1;
      assert txnAvailable == Prefill(c, 0).value.0;
      for i := 0 to |c.prefilled|
        invariant Prefill(c, i) == Some((txnAvailable, last))
      {
        if c.prefilled[i].tx.isNull {
          NoMorePrefill(c, i + 1, |c.prefilled|);
          return false;
        }
        last := last + c.prefilled[i].index + 1;
        if last > MAX_INDEX || last > |c.shortIds| + i {
          NoMorePrefill(c, i + 1, |c.prefilled|);
          return false;
        }
        txnAvailable := txnAvailable[last := Some(c.prefilled[i].tx)];
      }
      return true;
    }

    /** The offset of the next empty slot from `i + offset` on, of which there is one; it stays within 16 bits. */
    method NextEmpty(i: nat, offset: Index) returns (found: Index)
      requires |txnAvailable| <= MAX_INDEX && i + offset <= |txnAvailable|
      requires Missing(txnAvailable, i + offset) < Missing(txnAvailable, |txnAvailable|)
      ensures offset <= found && i + found < |txnAvailable| && txnAvailable[i + found].None?
      ensures FreeSlots(txnAvailable, i + found) == FreeSlots(txnAvailable, i + offset)
    {
      found := offset;
      while txnAvailable[i + found].Some?
        invariant offset <= found && i + found < |txnAvailable|
        invariant FreeSlots(txnAvailable, i + found) == FreeSlots(txnAvailable, i + offset)
        invariant Missing(txnAvailable, i + found) == Missing(txnAvailable, i + offset)
        decreases |txnAvailable| - (i + found)
      {
        found := found + 1;
      }
    }

    /** The second loop: every short id gets the next empty slot, and neither offset nor slot leaves 16 bits. */
    method MapIds(c: Announcement) returns (ids: map<nat, Index>)
      requires |c.shortIds| == Missing(txnAvailable, |txnAvailable|) && |txnAvailable| <= MAX_INDEX
      ensures ids == IdMap(c.shortIds, FreeSlots(txnAvailable, |txnAvailable|), |c.shortIds|)
    {
      ghost var free := FreeSlots(txnAvailable, |txnAvailable|);
      ids := map[];
      var indexOffset: Index := 0;
      assert FreeSlots(txnAvailable, 0) == [] && IdMap(c.shortIds, free, 0) == map[];
      hide FreeSlots, Missing, IdMap;
      for i := 0 to |c.shortIds|
        invariant i + indexOffset <= |txnAvailable| && FreeSlots(txnAvailable, i + indexOffset) == free[..i]
        invariant ids == IdMap(c.shortIds, free, i)
      {
        assert |FreeSlots(txnAvailable, i + indexOffset)| == i;
        indexOffset := NextEmpty(i, indexOffset);
        var slot: Index := i + indexOffset;
        NextFree(txnAvailable, slot, i);
        NextId(c.shortIds, free, i);
        ids := ids[c.shortIds[i] := slot];
      }
    }

    /** One transaction at hand. */
    method Consider(ids: map<nat, nat>, id: nat, tx: Tx, extra: bool, have: seq<bool>) returns (haveNow: seq<bool>)
      requires Fits(ids, Scan(txnAvailable, have, mempoolCount))
      modifies this`txnAvailable, this`mempoolCount
      ensures var s := Scan(old(txnAvailable), have, old(mempoolCount));
              Scan(txnAvailable, haveNow, mempoolCount) == if extra then ExtraStep(ids, id, tx, s)
                  else PoolStep(ids, id, tx, s)
    {
      haveNow := have;
      if id in ids {
        var slot := ids[id];
        if !have[slot] {
          txnAvailable := txnAvailable[slot := Some(tx)];
          haveNow := haveNow[slot := true];
          mempoolCount := mempoolCount + 1;
        } else if txnAvailable[slot].Some? && (!extra || txnAvailable[slot].value.hash != tx.hash) {
          txnAvailable := txnAvailable[slot := None];
          mempoolCount := mempoolCount - 1;
        }
      }
    }

    /** The two loops over transactions at hand. */
    method LookThrough(shortId: nat -> nat, ids: map<nat, nat>, txs: seq<Tx>, extra: bool, have: seq<bool>)
      returns (haveNow: seq<bool>)
      requires Fits(ids, Scan(txnAvailable, have, mempoolCount))
      modifies this`txnAvailable, this`mempoolCount
      ensures Scan(txnAvailable, haveNow, mempoolCount) ==
              ScanFrom(shortId, ids, txs, extra, 0, Scan(old(txnAvailable), have, old(mempoolCount)))
      ensures Fits(ids, Scan(txnAvailable, haveNow, mempoolCount))
    {
      hide PoolStep, ExtraStep;
      haveNow := have;
      ghost var all := ScanFrom(shortId, ids, txs, extra, 0, Scan(txnAvailable, have, mempoolCount));
      for i := 0 to |txs|
        invariant Fits(ids, Scan(txnAvailable, haveNow, mempoolCount))
        invariant all == ScanFrom(shortId, ids, txs, extra, i, Scan(txnAvailable, haveNow, mempoolCount))
      {
        haveNow := Consider(ids, shortId(txs[i].hash), txs[i], extra, haveNow);
        if mempoolCount == |ids| { return; }
      }
    }

    method InitData(shortId: nat -> nat, c: Announcement, maxCount: nat, evenBuckets: bool, pool: seq<Tx>, extra: seq<Tx>)
      returns (status: Status)
      requires headerNull && txnAvailable == [] && mempoolCount == 0 && Received(c)
      modifies this
      ensures status == C.InitData(shortId, c, maxCount, evenBuckets, pool, extra).0
      ensures status == OK ==> !headerNull
      ensures status == OK ==>
                (OK, txnAvailable, mempoolCount) == C.InitData(shortId, c, maxCount, evenBuckets, pool, extra)
    {
      if c.headerNull || (c.shortIds == [] && c.prefilled == []) { return INVALID; }
      if |c.shortIds| + |c.prefilled| > maxCount { return INVALID; }
      hide Prefill, FreeSlots, Missing, IdMap, ScanFrom, Fits;
      headerNull := false;
      txnAvailable := seq(|c.shortIds| + |c.prefilled|, _ => None);
      var ok := PutPrefilled(c);
      if !ok { return INVALID; }
      prefilledCount := |c.prefilled|;
      var ids := MapIds(c);
      if !evenBuckets || |ids| != |c.shortIds| { return FAILED; }
      LookThroughAll(shortId, ids, c, pool, extra);
      return OK;
    }

    method LookThroughAll(shortId: nat -> nat, ids: map<nat, nat>, c: Announcement, pool: seq<Tx>, extra: seq<Tx>)
      requires |c.shortIds| == Missing(txnAvailable, |txnAvailable|)
      requires ids == IdMap(c.shortIds, FreeSlots(txnAvailable, |txnAvailable|), |c.shortIds|)
      modifies this`txnAvailable, this`mempoolCount
      ensures var s0 := Scan(old(txnAvailable), seq(|old(txnAvailable)|, _ => false), old(mempoolCount));
              && Fits(ids, s0)
              && var s2 := ScanFrom(shortId, ids, extra, true, 0, ScanFrom(shortId, ids, pool, false, 0, s0));
                 txnAvailable == s2.slots && mempoolCount == s2.count
    {
      hide FreeSlots, Missing, IdMap, ScanFrom;
      IdMapFits(c.shortIds, FreeSlots(txnAvailable, |txnAvailable|), |c.shortIds|, |txnAvailable|);
      var have := seq(|txnAvailable|, _ => false);
      have := LookThrough(shortId, ids, pool, false, have);
      have := LookThrough(shortId, ids, extra, true, have);
    }

    /** `FillBlock`; running out of transactions leaves the object as far as it got, otherwise it is emptied. */
    method FillBlock(missing: seq<Tx>, check: seq<Tx> -> CheckResult) returns (status: Status, vtx: seq<Tx>)
      requires !headerNull
      modifies this
      ensures status == C.FillBlock(old(txnAvailable), missing, check).0
      ensures status == OK ==> vtx == C.FillBlock(old(txnAvailable), missing, check).1
      ensures Missing(old(txnAvailable), |old(txnAvailable)|) <= |missing| ==> headerNull && txnAvailable == []
    {
      ghost var slots := txnAvailable;
      vtx := [];
      var offset := 0;
      P.FilledIff(slots, missing, |slots|);
      for i := 0 to |txnAvailable|
        invariant |txnAvailable| == |slots| && !headerNull && forall j :: i <= j < |slots| ==> txnAvailable[j] == slots[j]
        invariant offset == Missing(slots, i) <= |missing| && Filled(slots, missing, i) == Some(vtx)
      {
        if txnAvailable[i].None? {
          if |missing| <= offset {
            MissingUp(slots, i + 1, |slots|);
            return INVALID, vtx;
          }
          vtx := vtx + [missing[offset]];
          offset := offset + 1;
        } else {
          vtx := vtx + [txnAvailable[i].value];
          txnAvailable := txnAvailable[i := None];
        }
      }
      headerNull, txnAvailable := true, [];
      if |missing| != offset { return INVALID, vtx; }
      match check(vtx)
      case Passed => return OK, vtx;
      case Mutated => return FAILED, vtx;
      case Rejected => return CHECKBLOCK_FAILED, vtx;
    }
  }

  lemma {:induction false} NoMorePrefill(c: Announcement, n: nat, m: nat)
    requires n <= m <= |c.prefilled| && Prefill(c, n).None?
    ensures Prefill(c, m).None?
  {
    hide Missing;
    if n < m { NoMorePrefill(c, n, m - 1); }
  }

  lemma {:induction false} FreePrefix(slots: Slots, n: nat, m: nat)
    requires n <= m <= |slots|
    ensures FreeSlots(slots, n) <= FreeSlots(slots, m)
  {
    if n < m { FreePrefix(slots, n, m - 1); }
  }

  lemma NextId(ids: seq<nat>, free: seq<nat>, i: nat)
    requires i < |ids| == |free|
    ensures IdMap(ids, free, i + 1) == IdMap(ids, free, i)[ids[i] := free[i]]
  {
  }

  lemma NextFree(slots: Slots, at: nat, i: nat)
    requires at < |slots| && slots[at].None? && i <= |FreeSlots(slots, |slots|)|
    requires FreeSlots(slots, at) == FreeSlots(slots, |slots|)[..i]
    ensures i < |FreeSlots(slots, |slots|)| && FreeSlots(slots, |slots|)[i] == at
    ensures FreeSlots(slots, at + 1) == FreeSlots(slots, |slots|)[..i + 1]
  {
    var free := FreeSlots(slots, |slots|);
    assert FreeSlots(slots, at + 1) == free[..i] + [at];
    hide FreeSlots;
    FreePrefix(slots, at + 1, |slots|);
  }

  lemma {:induction false} MissingUp(slots: Slots, n: nat, m: nat)
    requires n <= m <= |slots|
    ensures Missing(slots, n) <= Missing(slots, m)
  {
    if n < m { MissingUp(slots, n, m - 1); }
  }
}
