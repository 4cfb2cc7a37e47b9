/** The cuckoo cache as an object (src/cuckoocache.h); every method does what `Cuckoo` says. */
module CuckooCache {

  import opened Collections
  import opened Cuckoo
  import R = CuckooRuns

  class Cache {
    const hash: (nat, Element) -> nat

    var table: seq<Element>
    var size: nat
    var collectionFlags: seq<bool>
    var epochFlags: seq<bool>
    var epochHeuristicCounter: nat
    var epochSize: nat
    var depthLimit: nat

    function P(): Params
      reads this
    {
      Params(size, epochSize, depthLimit, hash)
    }

    function S(): State
      reads this
    {
      State(table, collectionFlags, epochFlags, epochHeuristicCounter)
    }

    ghost predicate Ready()
      reads this
    {
      P().Ok() && R.Valid(P(), S()) && R.Paced(P(), S())
    }

    constructor (hash: (nat, Element) -> nat)
      ensures this.hash == hash && table == [] && size == 0
    {
      this.hash := hash;
      table, size, collectionFlags, epochFlags := [], 0, [], [];
      epochHeuristicCounter, epochSize, depthLimit := 0, 0, 0;
    }

    /** `setup`; `depth` is the base-two logarithm of the size as the source's `float` arithmetic rounds it. */
    method Setup(newSize: nat, depth: nat) returns (r: nat)
      requires newSize < WORD && depth >= 1 && forall k, e :: hash(k, e) < WORD
      modifies this
      ensures r == size == Max(2, newSize) && depthLimit == depth
      ensures epochSize == Max(1, ((45 * size) % WORD) / 100)
      ensures Ready() && R.Live(S()) == {}
    {
      depthLimit := depth;
      size := if newSize < 2 then 2 else newSize;
      table := seq(size, _ => DEFAULT);
      collectionFlags := seq(size, _ => true);
      epochFlags := seq(size, _ => false);
      epochSize := if ((45 * size) % WORD) / 100 < 1 then 1 else ((45 * size) % WORD) / 100;
      epochHeuristicCounter := epochSize;
      R.SetupValid(P());
      assert S() == Cuckoo.Setup(size, epochSize);
      return size;
    }

    method AllowErase(n: nat)
      requires n < |collectionFlags|
      modifies this`collectionFlags
      ensures collectionFlags == old(collectionFlags)[n := true]
    {
      collectionFlags := collectionFlags[n := true];
    }

    method PleaseKeep(n: nat)
      requires n < |collectionFlags|
      modifies this`collectionFlags
      ensures collectionFlags == old(collectionFlags)[n := false]
    {
      collectionFlags := collectionFlags[n := false];
    }

    /** The two passes of `epoch_check`: count, and if need be age. */
    method CountEpoch() returns (count: nat)
      requires Sized(P(), S())
      ensures count == Count(S(), size)
    {
      count := 0;
      for i := 0 to size
        invariant count == Count(S(), i)
      {
        if epochFlags[i] && !collectionFlags[i] { count := count + 1; }
      }
    }

    method AgeEpoch()
      requires Sized(P(), S())
      modifies this`epochFlags, this`collectionFlags
      ensures S() == Age(old(S()))
    {
      for i := 0 to size
        invariant |collectionFlags| == |epochFlags| == size
        invariant forall j :: 0 <= j < i ==>
                  !epochFlags[j] && collectionFlags[j] == (old(collectionFlags[j]) || !old(epochFlags[j]))
        invariant forall j :: i <= j < size ==>
                  epochFlags[j] == old(epochFlags[j]) && collectionFlags[j] == old(collectionFlags[j])
      {
        if epochFlags[i] { epochFlags := epochFlags[i := false]; } else { AllowErase(i); }
      }
      assert collectionFlags == Age(old(S())).dead && epochFlags == Age(old(S())).epoch;
    }

    method EpochCheck()
      requires Sized(P(), S())
      modifies this
      ensures P() == old(P()) && S() == Cuckoo.EpochCheck(P(), old(S()))
    {
      if epochHeuristicCounter != 0 {
        epochHeuristicCounter := epochHeuristicCounter - 1;
        return;
      }
      var count := CountEpoch();
      if count >= epochSize {
        AgeEpoch();
        epochHeuristicCounter := epochSize;
      } else {
        epochHeuristicCounter := Max(1, Max(epochSize / 16, epochSize - count));
      }
    }

    /** The search of `insert` and `contains` for the element itself. */
    method Search(locs: seq<nat>, e: Element) returns (found: Option<nat>)
      requires forall j :: 0 <= j < |locs| ==> locs[j] < |table|
      ensures found == Match(S(), locs, e, 0)
    {
      for k := 0 to |locs|
        invariant Match(S(), locs, e, 0) == Match(S(), locs, e, k)
      {
        if table[locs[k]] == e { return Some(locs[k]); }
      }
      return None;
    }

    method SearchFree(locs: seq<nat>) returns (found: Option<nat>)
      requires forall j :: 0 <= j < |locs| ==> locs[j] < |collectionFlags|
      ensures found == Free(S(), locs, 0)
    {
      for k := 0 to |locs|
        invariant Free(S(), locs, 0) == Free(S(), locs, k)
      {
        if collectionFlags[locs[k]] { return Some(locs[k]); }
      }
      return None;
    }

    method Fill(loc: nat, e: Element, epoch: bool)
      requires loc < |table| == |collectionFlags| == |epochFlags|
      modifies this`table, this`collectionFlags, this`epochFlags
      ensures S() == Place(old(S()), loc, e, epoch)
    {
      table := table[loc := e];
      PleaseKeep(loc);
      epochFlags := epochFlags[loc := epoch];
    }

    /** The displacement loop of `insert`. */
    method Displace(start: Element)
      requires P().Ok() && Sized(P(), S())
      modifies this`table, this`collectionFlags, this`epochFlags
      ensures P() == old(P()) && S() == Cuckoo.Displace(P(), old(S()), start, true, INVALID, 0).0
    {
      hide Params.Locs;
      var e, epoch := start, true;
      var last: nat := INVALID;
      var depth := 0;
      ghost var p, s := P(), S();
      while depth < depthLimit
        invariant depth <= depthLimit && P() == p && Sized(p, S())
        invariant Cuckoo.Displace(p, s, start, true, INVALID, 0).0 == Cuckoo.Displace(p, S(), e, epoch, last, depth).0
      {
        LocsFit(p, e);
        var locs := P().Locs(e);
        var free := SearchFree(locs);
        if free.Some? {
          FreeFits(S(), locs, 0);
          Fill(free.value, e, epoch);
          return;
        }
        R.VictimIs(locs, last);
        last := Victim(locs, last);
        assert last < size by { assert last in locs; }
        var out, was := table[last], epochFlags[last];
        table := table[last := e];
        epochFlags := epochFlags[last := epoch];
        e, epoch := out, was;
        depth := depth + 1;
      }
    }

    method Insert(e: Element)
      requires Ready()
      modifies this
      ensures P() == old(P()) && S() == Cuckoo.Insert(P(), old(S()), e).0
      ensures Ready()
    {
      hide R.Valid, R.Paced, Params.Locs;
      assert Sized(P(), S()) by { R.ValidSized(P(), S()); }
      R.InsertKeeps(P(), S(), e);
      EpochCheck();
      LocsFit(P(), e);
      var locs := P().Locs(e);
      var found := Search(locs, e);
      if found.Some? {
        MatchFits(S(), locs, e, 0);
        Fill(found.value, e, true);
        return;
      }
      Displace(e);
    }

    method Contains(e: Element, erase: bool) returns (found: bool)
      requires Ready()
      modifies this`collectionFlags
      ensures P() == old(P()) && (S(), found) == Cuckoo.Contains(P(), old(S()), e, erase)
      ensures Ready()
      ensures e in R.Live(old(S())) ==> found
    {
      hide R.Valid, R.Paced, Params.Locs;
      assert Sized(P(), S()) by { R.ValidSized(P(), S()); }
      R.ContainsKeeps(P(), S(), e, erase);
      LocsFit(P(), e);
      var locs := P().Locs(e);
      var at := Search(locs, e);
      if at.None? { return false; }
      MatchFits(S(), locs, e, 0);
      if erase { AllowErase(at.value); }
      return true;
    }
  }
}
