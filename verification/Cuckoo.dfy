/**
  The cuckoo cache (src/cuckoocache.h): a table in which every element has eight possible slots,
  slots are discarded lazily, and entries age in two epochs.
 */
module Cuckoo {

  import opened Collections
  import L = Limbs

  type Element = nat

  /** What the table is filled with before anything is inserted. */
  const DEFAULT: Element := 0

  const INVALID := 0xffff_ffff
  const WORD := 0x1_0000_0000

  /** `FastRange32`: the upper half of a 64-bit product. */
  function FastRange32(x: nat, range: nat): nat { (x * range) / WORD }

  lemma FastRangeFits(x: nat, range: nat)
    requires x < WORD && range > 0
    ensures FastRange32(x, range) < range
  {
    var product := x * range;
    assert 0 <= product <= (WORD - 1) * range by { L.MulUp(0, x, range); L.MulUp(x, WORD - 1, range); }
    Halved(product, range);
  }

  lemma Halved(t: int, range: nat)
    requires 0 <= t <= (WORD - 1) * range && range > 0
    ensures t / WORD < range
  {
  }

  /** The sizes fixed by `setup`, and the hash function: `hash(k, e)` is the `k`th hash of `e`. */
  datatype Params = Params(size: nat, epochSize: nat, depthLimit: nat, hash: (nat, Element) -> nat)
  {
    ghost predicate Ok() {
      0 < size < WORD && epochSize >= 1 && depthLimit >= 1 && forall k, e :: hash(k, e) < WORD
    }

    function Loc(e: Element, k: nat): nat { FastRange32(hash(k, e), size) }

    function Locs(e: Element): seq<nat> {
      [Loc(e, 0), Loc(e, 1), Loc(e, 2), Loc(e, 3), Loc(e, 4), Loc(e, 5), Loc(e, 6), Loc(e, 7)]
    }
  }

  /** `dead` is the collection flag: the slot may be overwritten. */
  datatype State = State(table: seq<Element>, dead: seq<bool>, epoch: seq<bool>, counter: nat)

  ghost predicate Sized(p: Params, s: State) {
    |s.table| == |s.dead| == |s.epoch| == p.size
  }

  lemma LocsFit(p: Params, e: Element)
    requires p.Ok()
    ensures |p.Locs(e)| == 8 && forall k :: 0 <= k < 8 ==> p.Locs(e)[k] < p.size
  {
    forall k: nat | k < 8 ensures p.Loc(e, k) < p.size { FastRangeFits(p.hash(k, e), p.size); }
  }

  function Setup(size: nat, epochSize: nat): State {
    State(seq(size, _ => DEFAULT), seq(size, _ => true), seq(size, _ => false), epochSize)
  }

  // ---------- ageing ----------

  /** How many of the first `n` slots hold an entry of the current epoch. */
  function Count(s: State, n: nat): nat
    requires n <= |s.dead| == |s.epoch|
  {
    if n == 0 then 0 else Count(s, n - 1) + if s.epoch[n - 1] && !s.dead[n - 1] then 1 else 0
  }

  function Age(s: State): State
    requires |s.dead| == |s.epoch|
  {
    s.(dead := seq(|s.dead|, i requires 0 <= i < |s.dead| => s.dead[i] || !s.epoch[i]),
       epoch := seq(|s.epoch|, _ => false))
  }

  function Max(a: int, b: int): int { if a < b then b else a }

  function EpochCheck(p: Params, s: State): State
    requires |s.dead| == |s.epoch|
  {
    if s.counter != 0 then s.(counter := s.counter - 1)
    else
      var count := Count(s, |s.dead|);
      if count >= p.epochSize then Age(s).(counter := p.epochSize)
      else s.(counter := Max(1, Max(p.epochSize / 16, p.epochSize - count)))
  }

  // ---------- inserting ----------

  /** The first of the slots `locs[k..]` at which `e` lies, dead or not. */
  function Match(s: State, locs: seq<nat>, e: Element, k: nat): Option<nat>
    requires k <= |locs| && forall j :: 0 <= j < |locs| ==> locs[j] < |s.table|
    decreases |locs| - k
  {
    if k == |locs| then None else if s.table[locs[k]] == e then Some(locs[k]) else Match(s, locs, e, k + 1)
  }

  /** The first dead slot among `locs[k..]`. */
  function Free(s: State, locs: seq<nat>, k: nat): Option<nat>
    requires k <= |locs| && forall j :: 0 <= j < |locs| ==> locs[j] < |s.dead|
    decreases |locs| - k
  {
    if k == |locs| then None else if s.dead[locs[k]] then Some(locs[k]) else Free(s, locs, k + 1)
  }

  /** `std::find`: the index of the first `x`, or the length. */
  function Find(locs: seq<nat>, x: nat, k: nat): nat
    requires k <= |locs|
    decreases |locs| - k
  {
    if k == |locs| || locs[k] == x then k else Find(locs, x, k + 1)
  }

  function Place(s: State, loc: nat, e: Element, epoch: bool): State
    requires loc < |s.table| == |s.dead| == |s.epoch|
  {
    s.(table := s.table[loc := e], dead := s.dead[loc := false], epoch := s.epoch[loc := epoch])
  }

  /** The slot whose entry makes way: the one after the slot last looked at. */
  function Victim(locs: seq<nat>, last: nat): nat
    requires |locs| == 8
  {
    locs[(1 + Find(locs, last, 0)) % 8]
  }

  /** The loop of `insert` from `depth` on: the new state, and the element that is dropped, if any. */
  ghost function Displace(p: Params, s: State, e: Element, epoch: bool, last: nat, depth: nat): (State, Option<Element>)
    requires p.Ok() && Sized(p, s)
    decreases p.depthLimit - depth
  {
    LocsFit(p, e);
    if depth >= p.depthLimit then (s, Some(e))
    else
      var locs := p.Locs(e);
      var free := Free(s, locs, 0);
      if free.Some? then FreeFits(s, locs, 0); (Place(s, free.value, e, epoch), None)
      else
        var loc := Victim(locs, last);
        Displace(p, s.(table := s.table[loc := e], epoch := s.epoch[loc := epoch]), s.table[loc], s.epoch[loc], loc, depth + 1)
  }

  lemma {:induction false} FreeFits(s: State, locs: seq<nat>, k: nat)
    requires k <= |locs| && forall j :: 0 <= j < |locs| ==> locs[j] < |s.dead|
    ensures Free(s, locs, k).Some? ==> Free(s, locs, k).value < |s.dead|
    decreases |locs| - k
  {
    if k < |locs| { FreeFits(s, locs, k + 1); }
  }

  lemma {:induction false} MatchFits(s: State, locs: seq<nat>, e: Element, k: nat)
    requires k <= |locs| && forall j :: 0 <= j < |locs| ==> locs[j] < |s.table|
    ensures Match(s, locs, e, k).Some? ==> Match(s, locs, e, k).value < |s.table|
    decreases |locs| - k
  {
    if k < |locs| { MatchFits(s, locs, e, k + 1); }
  }

  ghost function Insert(p: Params, s: State, e: Element): (State, Option<Element>)
    requires p.Ok() && Sized(p, s)
  {
    LocsFit(p, e);
    var s1 := EpochCheck(p, s);
    var found := Match(s1, p.Locs(e), e, 0);
    if found.Some? then MatchFits(s1, p.Locs(e), e, 0); (Place(s1, found.value, e, true), None)
    else Displace(p, s1, e, true, INVALID, 0)
  }

  // ---------- looking up ----------

  ghost function Contains(p: Params, s: State, e: Element, erase: bool): (State, bool)
    requires p.Ok() && Sized(p, s)
  {
    LocsFit(p, e);
    var found := Match(s, p.Locs(e), e, 0);
    if found.None? then (s, false)
    else
      MatchFits(s, p.Locs(e), e, 0);
      (if erase then s.(dead := s.dead[found.value := true]) else s, true)
  }
}
