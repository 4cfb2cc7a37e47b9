/** The block index, its skip list, and the active chain (src/chain.cpp, src/chain.h). */
module Chain {

  import opened SkipHeights
  import L = Limbs

  // ---------- blocks ----------

  class BlockIndex {
    const pprev: BlockIndex?
    const nHeight: nat
    var pskip: BlockIndex?

    /** The ancestors, from the genesis block to the parent. */
    ghost const path: seq<BlockIndex>

    constructor (pprev: BlockIndex?)
      requires pprev != null ==> pprev.Linked()
      ensures Linked() && this.pprev == pprev && pskip == null
    {
      this.pprev := pprev;
      nHeight := if pprev == null then 0 else pprev.nHeight + 1;
      path := if pprev == null then [] else pprev.path + [pprev];
      pskip := null;
    }

    ghost predicate Linked()
      decreases nHeight
    {
      && |path| == nHeight
      && (if pprev == null then nHeight == 0
          else nHeight == pprev.nHeight + 1 && pprev.Linked() && path == pprev.path + [pprev])
    }

    /** The ancestors and the block itself: the block at each height. */
    ghost function Line(): (r: seq<BlockIndex>)
      ensures |r| == |path| + 1 && r[|path|] == this && r[..|path|] == path
    {
      path + [this]
    }

    /** The skip pointer, where set, leads to the ancestor at the skip height. */
    ghost predicate SkipOk()
      reads this
    {
      pskip != null ==> GetSkipHeight(nHeight) < |path| && pskip == path[GetSkipHeight(nHeight)]
    }

    ghost predicate SkipsOk()
      reads Line()
    {
      forall b :: b in Line() ==> b.SkipOk()
    }

    /** Every block but the genesis block has its skip pointer. */
    ghost predicate Built()
      reads Line()
    {
      forall b :: b in Line() && b.nHeight > 0 ==> b.pskip != null
    }

    /** One turn of the walk: along the skip pointer if it does not lead too far, else to the parent. */
    method OneTurn(height: nat) returns (next: BlockIndex)
      requires Linked() && SkipOk() && height < nHeight
      ensures next.nHeight < |path| && next == path[next.nHeight] && height <= next.nHeight
      ensures next.Linked() && next.path == path[..next.nHeight]
      ensures pskip != null ==> next.nHeight == NextHeight(nHeight, height)
    {
      hide GetSkipHeight, Linked;
      var heightSkip := GetSkipHeight(nHeight);
      var heightSkipPrev := GetSkipHeight(nHeight - 1);
      SkipBack(nHeight);
      Parent();
      if pskip != null
         && (heightSkip == height
             || (heightSkip > height && !(heightSkipPrev < heightSkip - 2 && heightSkipPrev >= height))) {
        At(heightSkip);
        next := pskip;
      } else {
        next := pprev;
      }
    }

    /** The walk ends at the right block, and with all skip pointers it is short. */
    method GetAncestor(height: int) returns (r: BlockIndex?, ghost turns: nat)
      requires Linked() && SkipsOk()
      ensures r == if 0 <= height <= nHeight then Line()[height] else null
      ensures 0 <= height <= nHeight ==> r == ParentWalk(this, nHeight - height)
      ensures 0 <= height <= nHeight && Built() ==> turns == Turns(nHeight, height) && FewFor(nHeight, turns)
    {
      turns := 0;
      if 0 <= height <= nHeight {
        WalkIsLine(this, height);
        TurnsFew(nHeight, height);
      }
      hide FewFor, Turns, NextHeight, GetSkipHeight, ParentWalk, SkipsOk, Built, Linked;
      if height > nHeight || height < 0 { return null, 0; }
      var walk: BlockIndex := this;
      while walk.nHeight > height
        invariant height <= walk.nHeight <= nHeight && walk == Line()[walk.nHeight]
        invariant walk.Linked() && walk.path == Line()[..walk.nHeight]
        invariant Built() ==> turns + Turns(walk.nHeight, height) == Turns(nHeight, height)
        decreases walk.nHeight
      {
        SkipHeights.Step(walk.nHeight, height);
        OnLine(walk, walk.nHeight);
        turns := turns + 1;
        walk := walk.OneTurn(height);
      }
      TurnsNone(walk.nHeight, height);
      return walk, turns;
    }

    lemma OnLine(b: BlockIndex, h: nat)
      requires SkipsOk() && h <= |path| && b == Line()[h] && b.nHeight == h
      ensures b.SkipOk() && (Built() && h > 0 ==> b.pskip != null)
    {
      assert b in Line();
    }

    lemma Parent()
      requires Linked() && nHeight > 0
      ensures pprev != null && pprev.Linked() && pprev.nHeight == nHeight - 1 < |path|
      ensures pprev == path[nHeight - 1] && pprev.path == path[..nHeight - 1]
    {
      At(nHeight - 1);
    }

    /** An ancestor is linked itself, and its own ancestors are those below it. */
    lemma {:induction false} At(h: nat)
      requires Linked() && h < nHeight
      ensures path[h].Linked() && path[h].nHeight == h && path[h].path == path[..h]
      decreases nHeight
    {
      if h < nHeight - 1 {
        pprev.At(h);
        assert pprev.path[..h] == path[..h];
      } else {
        assert path[..h] == pprev.path;
      }
    }

    /** Adding a block: if all skips before it are right, so is its own, and none before it changes. */
    method BuildSkip()
      requires Linked() && if pprev == null then pskip == null else pprev.SkipsOk()
      modifies this`pskip
      ensures SkipsOk() && (pprev != null ==> pskip != null)
      ensures pprev == null || old(pprev.Built()) ==> Built()
    {
      if pprev != null {
        SkipBack(nHeight);
        var ancestor, _ := pprev.GetAncestor(GetSkipHeight(nHeight));
        pskip := ancestor;
        NotAmongAncestors();
        assert pprev.Line() == path;
      }
      assert Line() == path + [this];
    }

    lemma NotAmongAncestors()
      requires Linked()
      ensures this !in path
    {
      if this in path {
        var h :| 0 <= h < |path| && path[h] == this;
        At(h);
      }
    }
  }

  /** What `GetAncestor` shortens: so many steps to the parent. */
  function ParentWalk(b: BlockIndex, steps: nat): BlockIndex?
    decreases steps
  {
    if steps == 0 then b else if b.pprev == null then null else ParentWalk(b.pprev, steps - 1)
  }

  lemma {:induction false} WalkIsLine(b: BlockIndex, h: nat)
    requires b.Linked() && h <= b.nHeight
    ensures ParentWalk(b, b.nHeight - h) == b.Line()[h]
    decreases b.nHeight
  {
    if h < b.nHeight {
      WalkIsLine(b.pprev, h);
      assert b.pprev.Line() == b.path;
    }
  }

  // ---------- common ancestors ----------

  /** Lines that meet at a height are the same below it. */
  lemma SameBelow(a: BlockIndex, b: BlockIndex, h: nat)
    requires a.Linked() && b.Linked() && h <= a.nHeight && h <= b.nHeight && a.Line()[h] == b.Line()[h]
    ensures a.Line()[..h + 1] == b.Line()[..h + 1]
  {
    LineAt(a, h);
    LineAt(b, h);
  }

  lemma LineAt(b: BlockIndex, h: nat)
    requires b.Linked() && h <= b.nHeight
    ensures b.Line()[h].Linked() && b.Line()[h].nHeight == h && b.Line()[h].Line() == b.Line()[..h + 1]
  {
    if h < b.nHeight { b.At(h); }
  }

  /** One step to the parent goes down the line by one. */
  lemma Down(b: BlockIndex, h: nat)
    requires b.Linked() && h <= b.nHeight
    ensures |b.Line()| == b.nHeight + 1 && b.Line()[h].nHeight == h
    ensures b.Line()[h].pprev == if h == 0 then null else b.Line()[h - 1]
    ensures h > 0 ==> b.Line()[h - 1].nHeight == h - 1
  {
    LineAt(b, h);
    var x := b.Line()[h];
    if h > 0 {
      LineAt(b, h - 1);
      assert x.Line()[h - 1] == x.pprev;
    }
  }

  /** `r` is the last block on both lines; nothing if the lines never meet. */
  ghost predicate IsFork(a: seq<BlockIndex>, b: seq<BlockIndex>, r: BlockIndex?) {
    if r == null then forall h :: 0 <= h < |a| && h < |b| ==> a[h] != b[h]
    else
      && r.nHeight < |a| && r.nHeight < |b| && a[r.nHeight] == r == b[r.nHeight]
      && (forall h :: r.nHeight < h < |a| && h < |b| ==> a[h] != b[h])
  }

  lemma ForkUnique(a: seq<BlockIndex>, b: seq<BlockIndex>, r: BlockIndex?, r': BlockIndex?)
    requires IsFork(a, b, r) && IsFork(a, b, r')
    ensures r == r'
  {
  }

  method LastCommonAncestor(pa: BlockIndex, pb: BlockIndex) returns (r: BlockIndex?)
    requires pa.Linked() && pb.Linked() && pa.SkipsOk() && pb.SkipsOk()
    ensures IsFork(pa.Line(), pb.Line(), r)
  {
    Down(pa, pa.nHeight);
    Down(pb, pb.nHeight);
    hide BlockIndex.Linked, BlockIndex.SkipsOk;
    var a: BlockIndex?, b: BlockIndex? := pa, pb;
    if pa.nHeight > pb.nHeight {
      var ancestor, _ := pa.GetAncestor(pb.nHeight);
      a := ancestor;
      Down(pa, pb.nHeight);
    } else if pb.nHeight > pa.nHeight {
      var ancestor, _ := pb.GetAncestor(pa.nHeight);
      b := ancestor;
      Down(pb, pa.nHeight);
    }
    ghost var h: int := a.nHeight;
    while a != b && a != null && b != null
      invariant -1 <= h <= pa.nHeight && h <= pb.nHeight
      invariant a == (if h < 0 then null else pa.Line()[h]) && b == (if h < 0 then null else pb.Line()[h])
      invariant forall k :: h < k <= pa.nHeight && k <= pb.nHeight ==> pa.Line()[k] != pb.Line()[k]
      decreases h
    {
      Down(pa, h);
      Down(pb, h);
      a, b := a.pprev, b.pprev;
      h := h - 1;
    }
    if h >= 0 { Down(pa, h); }
    assert a == b;
    return a;
  }

  // ---------- the active chain ----------

  ghost predicate IsLine(chain: seq<BlockIndex?>) {
    && chain != []
    && (forall i :: 0 <= i < |chain| ==> chain[i] != null)
    && var tip: BlockIndex? := chain[|chain| - 1];
       tip.Linked() && chain == tip.Line()
  }

  lemma LineIs(b: BlockIndex, chain: seq<BlockIndex?>)
    requires b.Linked() && chain == b.Line()
    ensures IsLine(chain)
  {
  }

  class ActiveChain {
    var vChain: seq<BlockIndex?>

    constructor ()
      ensures Valid() && vChain == []
    {
      vChain := [];
    }

    /** The chain is the line of its tip. */
    ghost predicate Valid()
      reads this
    {
      vChain != [] ==> IsLine(vChain)
    }

    function Height(): int
      reads this
    {
      |vChain| - 1
    }

    function Tip(): BlockIndex?
      reads this
    {
      if |vChain| > 0 then vChain[|vChain| - 1] else null
    }

    function Get(height: int): BlockIndex?
      reads this
    {
      if height < 0 || height >= |vChain| then null else vChain[height]
    }

    predicate Contains(b: BlockIndex)
      reads this
    {
      Get(b.nHeight) == b
    }

    function Next(b: BlockIndex): BlockIndex?
      reads this
    {
      if Contains(b) then Get(b.nHeight + 1) else null
    }

    /** Rewriting stops at the first block already in place; below that nothing can differ. */
    method SetTip(block: BlockIndex)
      requires Valid() && block.Linked()
      modifies this
      ensures Valid() && vChain == block.Line()
    {
      ghost var was, line := vChain, block.Line();
      Down(block, block.nHeight);
      Resize(block.nHeight + 1);
      var pindex: BlockIndex? := block;
      ghost var h: int := block.nHeight;
      hide BlockIndex.Linked, BlockIndex.Line, IsLine;
      while pindex != null && vChain[pindex.nHeight] != pindex
        invariant -1 <= h <= block.nHeight && |vChain| == block.nHeight + 1
        invariant pindex == if h < 0 then null else line[h]
        invariant pindex != null ==> pindex.nHeight == h
        invariant forall i :: h < i < |vChain| ==> vChain[i] == line[i]
        invariant forall i :: 0 <= i <= h ==> vChain[i] == if i < |was| then was[i] else null
        decreases h
      {
        Down(block, h);
        vChain := vChain[pindex.nHeight := pindex];
        pindex := pindex.pprev;
        h := h - 1;
      }
      if pindex != null { Agreed(was, block, h); }
      assert vChain == line;
      LineIs(block, vChain);
    }

    method Resize(n: nat)
      modifies this
      ensures |vChain| == n && forall i :: 0 <= i < n ==> vChain[i] == if i < |old(vChain)| then old(vChain)[i] else null
    {
      vChain := if |vChain| >= n then vChain[..n] else vChain + seq(n - |vChain|, _ => null);
    }

    /** An old chain that has the block's ancestor at a height has all those below it. */
    static lemma Agreed(was: seq<BlockIndex?>, block: BlockIndex, h: nat)
      requires block.Linked() && h <= block.nHeight && h < |was| && was[h] == block.Line()[h]
      requires IsLine(was)
      ensures forall i :: 0 <= i <= h ==> was[i] == block.Line()[i]
    {
      var tip: BlockIndex? := was[|was| - 1];
      SameBelow(block, tip, h);
      forall i | 0 <= i <= h ensures was[i] == block.Line()[i] {
        assert block.Line()[..h + 1][i] == tip.Line()[..h + 1][i];
      }
    }

    method FindFork(start: BlockIndex?) returns (r: BlockIndex?)
      requires Valid() && (start != null ==> start.Linked() && start.SkipsOk())
      ensures start == null ==> r == null
      ensures start != null && vChain == [] ==> r == null
      ensures start != null && vChain != [] ==> IsFork(start.Line(), Tip().Line(), r)
    {
      if start == null { return null; }
      Down(start, start.nHeight);
      ghost var tipLine: seq<BlockIndex> := if vChain == [] then [] else Tip().Line();
      assert |vChain| == |tipLine| && vChain == tipLine;
      hide BlockIndex.Linked, BlockIndex.SkipsOk, BlockIndex.Line, IsLine;
      var pindex: BlockIndex? := start;
      if start.nHeight > Height() {
        var ancestor, _ := start.GetAncestor(Height());
        pindex := ancestor;
        if Height() >= 0 { Down(start, Height()); }
      }
      r := BackToChain(start, tipLine, pindex, if pindex == null then -1 else pindex.nHeight);
    }

    /** The loop of `FindFork`, from the block at height `from` of the line of `start`. */
    method BackToChain(ghost start: BlockIndex, ghost chain: seq<BlockIndex>, from: BlockIndex?, ghost height: int)
      returns (r: BlockIndex?)
      requires |vChain| == |chain| && vChain == chain
      requires start.Linked() && -1 <= height <= start.nHeight && height < |vChain|
      requires from == (if height < 0 then null else start.Line()[height]) && (from != null ==> from.nHeight == height)
      requires height < start.nHeight ==> height == |vChain| - 1
      ensures vChain == [] ==> r == null
      ensures vChain != [] ==> IsFork(start.Line(), chain, r)
    {
      Down(start, start.nHeight);
      ghost var line := start.Line();
      hide BlockIndex.Linked, BlockIndex.SkipsOk, BlockIndex.Line, IsLine;
      var pindex := from;
      ghost var h := height;
      while pindex != null && !Contains(pindex)
        invariant -1 <= h <= start.nHeight && h < |vChain|
        invariant pindex == if h < 0 then null else line[h]
        invariant pindex != null ==> pindex.nHeight == h
        invariant forall k :: h < k <= start.nHeight && k < |chain| ==> line[k] != chain[k]
        decreases h
      {
        Down(start, h);
        pindex := pindex.pprev;
        h := h - 1;
      }
      return pindex;
    }

    /** An ancestor by the chain's own index if possible, else by the skip list. */
    method StepBack(ghost b: BlockIndex, pindex: BlockIndex, height: nat) returns (r: BlockIndex)
      requires Valid() && b.Linked() && b.SkipsOk()
      requires height <= pindex.nHeight <= b.nHeight && pindex == b.Line()[pindex.nHeight]
      ensures r == b.Line()[height] && r.nHeight == height
    {
      LineAt(b, pindex.nHeight);
      LineAt(b, height);
      if Contains(pindex) {
        Agreed(vChain, b, pindex.nHeight);
        r := Get(height);
      } else {
        assert pindex.Line() == b.Line()[..pindex.nHeight + 1];
        var ancestor, _ := pindex.GetAncestor(height);
        r := ancestor;
      }
    }

    /**
      The ancestors of a block from itself down to the genesis block, one by one at first and then in
      doubling steps: strictly descending, at exactly the heights of `Reach`, and about as many as the
      height has bits. The step stays within 32 bits for exactly the heights required (`StepFits`).
     */
    method GetLocator(start: BlockIndex?) returns (have: seq<BlockIndex>)
      requires Valid()
      requires var b := if start == null then Tip() else start;
               b != null ==> b.Linked() && b.SkipsOk() && b.nHeight <= LOCATOR_LIMIT
      ensures var b := if start == null then Tip() else start;
              if b == null then have == [] else IsLocator(b, have)
    {
      have := [];
      var pindex := if start == null then Tip() else start;
      if pindex == null { return; }
      ghost var b: BlockIndex := pindex;
      var nStep: nat := 1;
      Leaving(b);
      hide BlockIndex.Linked, BlockIndex.SkipsOk, BlockIndex.Line, IsLine, Stride, Reach, L.Pow2, Underway, IsLocator;
      while pindex != null
        invariant pindex != null && Underway(b, have, pindex, nStep)
        invariant nStep < 0x8000_0000
        decreases if pindex == null then 0 else pindex.nHeight
      {
        OnTheWay(b, have, pindex, nStep);
        ghost var p, listed, step := pindex, have, nStep;
        have := have + [pindex];
        if pindex.nHeight == 0 {
          LastListed(b, listed, p, step);
          break;
        }
        pindex := StepBack(b, pindex, Floor(pindex.nHeight - nStep));
        if |have| > 10 { nStep := nStep * 2; }
        Listed(b, listed, p, step, pindex);
      }
    }
  }

  function Floor(x: int): nat { if x < 0 then 0 else x }

  /** How far below the start the locator is after `m` entries, and how far the next step goes. */
  function Stride(m: nat): nat { if m <= 10 then 1 else L.Pow2(m - 10) }

  function Reach(m: nat): nat { if m <= 10 then m else 9 + L.Pow2(m - 10) }

  ghost predicate Spaced(height: nat, have: seq<BlockIndex>) {
    forall k :: 0 <= k < |have| ==> have[k].nHeight == Floor(height - Reach(k))
  }

  /** From the entry before the `m`-th to the `m`-th. */
  lemma Onward(height: nat, m: nat)
    requires m > 0 && Reach(m - 1) < height
    ensures Stride(m) == if m > 10 then 2 * Stride(m - 1) else Stride(m - 1)
    ensures Stride(m - 1) >= 1 && Reach(m) == Reach(m - 1) + Stride(m - 1)
    ensures m > 10 ==> L.Pow2(m - 11) < height - 9
  {
    assert m > 10 ==> L.Pow2(m - 10) == 2 * L.Pow2(m - 11);
    assert L.Pow2(0) == 1;
  }

  /** The greatest height from which the step of the locator never leaves 32 bits. */
  const LOCATOR_LIMIT := 0x4000_0009

  /** While the genesis block is not reached the next step fits 32 bits, from a height up to the limit. */
  lemma StepFits(height: nat, m: nat)
    requires height <= LOCATOR_LIMIT && m > 0 && Reach(m - 1) < height
    ensures Stride(m) < 0x8000_0000
  {
    Powers();
    if m > 40 { L.Pow2Up(30, m - 11); }
    if 10 < m <= 40 { L.Pow2Up(m - 10, 30); }
  }

  /** From any greater height it leaves 32 bits before the genesis block is reached. */
  lemma StepOverflows(height: nat) returns (m: nat)
    requires height > LOCATOR_LIMIT
    ensures m > 0 && Reach(m - 1) < height && Stride(m) >= 0x8000_0000
  {
    Powers();
    m := 41;
  }

  lemma Powers()
    ensures L.Pow2(30) == 0x4000_0000 && L.Pow2(31) == 0x8000_0000
  {
    L.Pow2Of32();
    assert L.Pow2(32) == 2 * L.Pow2(31) && L.Pow2(31) == 2 * L.Pow2(30);
  }

  /** Blocks of one line at strictly descending heights. */
  ghost predicate Descends(b: BlockIndex, have: seq<BlockIndex>)
    requires b.Linked()
  {
    && (forall i :: 0 <= i < |have| ==> have[i].nHeight <= b.nHeight && have[i] == b.Line()[have[i].nHeight])
    && (forall i :: 0 < i < |have| ==> have[i].nHeight < have[i - 1].nHeight)
  }

  /** The locator of a block. */
  ghost predicate IsLocator(b: BlockIndex, have: seq<BlockIndex>) {
    && b.Linked() && Descends(b, have) && Spaced(b.nHeight, have)
    && have != [] && have[0] == b && have[|have| - 1].nHeight == 0
    && (|have| <= 11 || L.Pow2(|have| - 12) < b.nHeight - 9)
  }

  /** Before the block `p` is listed. */
  ghost predicate Underway(b: BlockIndex, have: seq<BlockIndex>, p: BlockIndex, nStep: nat) {
    && b.Linked() && Descends(b, have) && Spaced(b.nHeight, have)
    && p.nHeight <= b.nHeight && p == b.Line()[p.nHeight]
    && nStep == Stride(|have|) && p.nHeight == Floor(b.nHeight - Reach(|have|))
    && (if have == [] then p == b else have[0] == b && p.nHeight < have[|have| - 1].nHeight)
    && (|have| > 10 ==> L.Pow2(|have| - 11) < b.nHeight - 9)
  }

  lemma Leaving(b: BlockIndex)
    requires b.Linked()
    ensures Underway(b, [], b, 1)
  {
    Down(b, b.nHeight);
  }

  lemma OnTheWay(b: BlockIndex, have: seq<BlockIndex>, p: BlockIndex, nStep: nat)
    requires Underway(b, have, p, nStep)
    ensures b.Linked() && p.nHeight <= b.nHeight && p == b.Line()[p.nHeight] && nStep > 0
  {
    hide BlockIndex.Linked, IsLine, Reach;
  }

  /** The genesis block is the last entry. */
  lemma LastListed(b: BlockIndex, have: seq<BlockIndex>, p: BlockIndex, nStep: nat)
    requires Underway(b, have, p, nStep) && p.nHeight == 0
    ensures IsLocator(b, have + [p])
  {
    hide BlockIndex.Linked, IsLine, Reach, Stride, L.Pow2;
  }

  /** Any other block is followed by one that is a step further down. */
  lemma Listed(b: BlockIndex, have: seq<BlockIndex>, p: BlockIndex, nStep: nat, q: BlockIndex)
    requires Underway(b, have, p, nStep) && p.nHeight > 0
    requires b.nHeight <= LOCATOR_LIMIT && q.nHeight == Floor(p.nHeight - nStep) && q == b.Line()[q.nHeight]
    ensures var next := if |have| + 1 > 10 then 2 * nStep else nStep;
            next < 0x8000_0000 && Underway(b, have + [p], q, next)
  {
    Onward(b.nHeight, |have| + 1);
    StepFits(b.nHeight, |have| + 1);
    hide BlockIndex.Linked, IsLine, Reach, Stride, L.Pow2;
  }
}
