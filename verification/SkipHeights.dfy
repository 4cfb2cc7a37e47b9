/**
  The skip list of the block index (src/chain.cpp:79-118): the heights that skip pointers lead to, and
  how many turns the walk along them takes.
 */
module SkipHeights {

  import L = Limbs

  // ---------- skip heights ----------

  /** Bitwise and. */
  function BitAnd(x: nat, y: nat): nat {
    if x == 0 || y == 0 then 0 else 2 * BitAnd(x / 2, y / 2) + (if x % 2 == 1 && y % 2 == 1 then 1 else 0)
  }

  lemma {:induction false} AndAtMost(x: nat, y: nat)
    ensures BitAnd(x, y) <= x && BitAnd(x, y) <= y
  {
    if x != 0 && y != 0 { AndAtMost(x / 2, y / 2); }
  }

  function InvertLowestOne(n: nat): nat {
    if n == 0 then 0 else BitAnd(n, n - 1)
  }

  function GetSkipHeight(height: nat): nat {
    if height < 2 then 0
    else if height % 2 == 1 then InvertLowestOne(InvertLowestOne(height - 1)) + 1
    else InvertLowestOne(height)
  }

  lemma LowestOneDown(n: nat)
    ensures InvertLowestOne(n) <= if n == 0 then 0 else n - 1
  {
    if n != 0 { AndAtMost(n, n - 1); }
  }

  /** The largest power of two that divides a number. */
  function LowestOne(n: nat): nat
    requires n > 0
  {
    if n % 2 == 1 then 1 else 2 * LowestOne(n / 2)
  }

  /** `n & (n - 1)` takes away exactly the lowest bit that is set. */
  lemma {:induction false} InvertLowestOneIs(n: nat)
    requires n > 0
    ensures InvertLowestOne(n) == n - LowestOne(n)
  {
    if n % 2 == 0 {
      InvertLowestOneIs(n / 2);
      assert (n - 1) / 2 == n / 2 - 1;
    } else if n > 1 {
      AndSame(n / 2);
      assert (n - 1) / 2 == n / 2;
    }
  }

  lemma {:induction false} AndSame(n: nat)
    ensures BitAnd(n, n) == n
  {
    if n != 0 { AndSame(n / 2); }
  }

  /** Skips go strictly back. */
  lemma SkipBack(height: nat)
    requires height > 0
    ensures GetSkipHeight(height) < height
  {
    hide BitAnd, InvertLowestOne;
    if height >= 2 {
      LowestOneDown(height);
      LowestOneDown(height - 1);
      LowestOneDown(InvertLowestOne(height - 1));
    }
  }

  // ---------- the walk ----------

  /** Where one turn of `GetAncestor` leads, for a block with a skip pointer. */
  function NextHeight(height: nat, target: nat): (r: nat)
    requires target < height
    ensures target <= r < height
  {
    var skip, skipPrev := GetSkipHeight(height), GetSkipHeight(height - 1);
    SkipBack(height);
    if skip == target || (skip > target && !(skipPrev < skip - 2 && skipPrev >= target)) then skip else height - 1
  }

  /** How many turns the walk takes. */
  function Turns(height: nat, target: nat): nat {
    if height <= target then 0 else 1 + Turns(NextHeight(height, target), target)
  }

  // ---------- bits ----------

  lemma InvertEven(m: nat)
    ensures InvertLowestOne(2 * m) == 2 * InvertLowestOne(m)
  {
    if m > 0 {
      InvertLowestOneIs(2 * m);
      InvertLowestOneIs(m);
    }
  }

  lemma InvertOdd(m: nat)
    ensures InvertLowestOne(2 * m + 1) == 2 * m
  {
    InvertLowestOneIs(2 * m + 1);
  }

  function Ones(n: nat): nat { if n == 0 then 0 else Ones(n / 2) + n % 2 }

  lemma {:induction false} OnesInvert(n: nat)
    requires n > 0
    ensures Ones(n) > 0 && Ones(InvertLowestOne(n)) == Ones(n) - 1 && InvertLowestOne(n) < n
  {
    LowestOneDown(n);
    hide InvertLowestOne;
    if n % 2 == 0 {
      InvertEven(n / 2);
      OnesInvert(n / 2);
    } else {
      InvertOdd(n / 2);
    }
  }

  lemma InvertKeepsEven(n: nat)
    requires n % 2 == 0
    ensures InvertLowestOne(n) % 2 == 0 && Ones(InvertLowestOne(n) + 1) == Ones(InvertLowestOne(n)) + 1
  {
    hide InvertLowestOne;
    InvertEven(n / 2);
    OnesEven(InvertLowestOne(n));
  }

  lemma OnesEven(n: nat)
    requires n % 2 == 0
    ensures Ones(n + 1) == Ones(n) + 1
  {
    assert (n + 1) / 2 == n / 2;
  }

  /** `q` blocks of two to the `k`. */
  function Block(q: nat, k: nat): nat { if k == 0 then q else 2 * Block(q, k - 1) }

  function Size(k: nat): nat { Block(1, k) }

  lemma {:induction false} BlockHalves(q: nat, k: nat)
    ensures Block(2 * q, k) == Block(q, k + 1) && Block(2 * q + 1, k) == Block(q, k + 1) + Size(k)
    ensures Size(k + 1) == 2 * Size(k) && Size(k) > 0
  {
    if k > 0 { BlockHalves(q, k - 1); }
  }

  lemma {:induction false} SizeIs(k: nat)
    ensures Size(k) == L.Pow2(k)
  {
    if k > 0 { SizeIs(k - 1); }
  }

  lemma {:induction false} OnesAtMost(n: nat, k: nat)
    requires n < Size(k)
    ensures Ones(n) <= k
  {
    if n > 0 { OnesAtMost(n / 2, k - 1); }
  }

  lemma {:induction false} InvertBlock(q: nat, k: nat)
    ensures InvertLowestOne(Block(q, k)) == Block(InvertLowestOne(q), k)
  {
    hide InvertLowestOne;
    if k > 0 {
      InvertBlock(q, k - 1);
      InvertEven(Block(q, k - 1));
    }
  }

  /** Within a block the bits of the block number stay. */
  lemma {:induction false} InvertWithin(q: nat, k: nat, x: nat)
    requires 0 < x < Size(k)
    ensures InvertLowestOne(Block(q, k) + x) == Block(q, k) + InvertLowestOne(x)
  {
    hide InvertLowestOne;
    if x % 2 == 0 {
      InvertWithin(q, k - 1, x / 2);
      InvertEven(Block(q, k - 1) + x / 2);
      InvertEven(x / 2);
    } else {
      InvertOdd(Block(q, k - 1) + x / 2);
      InvertOdd(x / 2);
      assert Block(q, k) + x == 2 * (Block(q, k - 1) + x / 2) + 1;
    }
  }

  /** The upper half of a block: its first height, and the height where the lower half begins. */
  lemma Halves(q: nat, k: nat)
    ensures var low, high := Block(2 * q, k), Block(2 * q + 1, k);
            && high == low + Size(k) && Size(k) > 0
            && InvertLowestOne(high) == low && InvertLowestOne(low) <= low
            && (k > 0 ==> high % 2 == 0 && low % 2 == 0 && Size(k) >= 2)
  {
    hide InvertLowestOne;
    if k > 0 {
      BlockHalves(0, k - 1);
      BlockEven(2 * q, k);
      BlockEven(2 * q + 1, k);
    }
    hide Block;
    BlockHalves(q, k);
    InvertBlock(2 * q + 1, k);
    InvertOdd(q);
    LowestOneDown(Block(2 * q, k));
  }

  lemma BlockEven(q: nat, k: nat)
    requires k > 0
    ensures Block(q, k) % 2 == 0
  {
  }

  // ---------- the bound ----------

  lemma Step(height: nat, target: nat)
    requires target < height
    ensures Turns(height, target) == 1 + Turns(NextHeight(height, target), target)
  {
  }

  /** An odd height skips unless that leads too far. */
  lemma OddNext(height: nat, target: nat)
    requires target < height && height % 2 == 1 && height > 1
    ensures var skip := InvertLowestOne(InvertLowestOne(height - 1)) + 1;
            NextHeight(height, target) == if skip >= target then skip else height - 1
  {
    hide InvertLowestOne;
    LowestOneDown(InvertLowestOne(height - 1));
  }

  /** So does an even height, unless the height before it skips much further. */
  lemma EvenNext(height: nat, target: nat)
    requires target < height && height % 2 == 0
    ensures var skip, next := InvertLowestOne(height), NextHeight(height, target);
            && (skip == target ==> next == target)
            && (skip < target ==> next == height - 1)
            && (skip > target && next != skip ==>
                  && height > 2 && next == height - 1
                  && target <= InvertLowestOne(InvertLowestOne(height - 2)) + 1 < skip - 2)
  {
    hide InvertLowestOne;
    if height == 2 {
      InvertEven(1);
      InvertOdd(0);
    }
  }

  /** The two turns from an even height over the one before it. */
  lemma TwoTurns(height: nat, target: nat)
    requires target < height - 1 && height % 2 == 0 && height > 2 && NextHeight(height, target) == height - 1
    requires InvertLowestOne(InvertLowestOne(height - 2)) + 1 >= target
    ensures Turns(height, target) == 2 + Turns(InvertLowestOne(InvertLowestOne(height - 2)) + 1, target)
  {
    hide InvertLowestOne, NextHeight, Turns;
    Step(height, target);
    Step(height - 1, target);
    OddNext(height - 1, target);
  }

  /** The height before an even one skips further only from just after a short run of zeros. */
  lemma OnesBefore(z: nat)
    requires z >= 2 && z % 2 == 0 && InvertLowestOne(InvertLowestOne(z - 2)) < InvertLowestOne(z)
    ensures Ones(z - 2) <= Ones(z)
  {
    hide InvertLowestOne, Ones;
    var a := TrailingZeros(z);
    if z == 4 * a + 2 {
      OneZero(a);
    } else if z == 8 * a + 4 {
      TwoZeros(a);
    } else {
      LongRun(a);
    }
  }

  lemma TrailingZeros(z: nat) returns (a: nat)
    requires z >= 2 && z % 2 == 0
    ensures z == 4 * a + 2 || z == 8 * a + 4 || z == 8 * (a + 1)
  {
    var m := z / 2;
    a := if m % 2 == 1 then m / 2 else if m / 2 % 2 == 1 then m / 2 / 2 else m / 2 / 2 - 1;
  }

  lemma OneZero(a: nat)
    ensures Ones(4 * a) <= Ones(4 * a + 2)
  {
    hide Ones;
    OnesDouble(2 * a + 1);
    OnesDouble(2 * a);
    OnesEven(2 * a);
  }

  lemma TwoZeros(a: nat)
    ensures Ones(8 * a + 2) <= Ones(8 * a + 4)
  {
    hide Ones;
    OnesDouble(4 * a + 1);
    OnesEven(4 * a);
    OnesDouble(2 * a);
    OnesDouble(4 * a + 2);
    OnesDouble(2 * a + 1);
    OnesEven(2 * a);
  }

  lemma Positive(k: nat, z: nat)
    requires 0 < z < Size(k)
    ensures k > 0
  {
  }

  lemma OnesDouble(m: nat)
    ensures Ones(2 * m) == Ones(m)
  {
  }

  /** After three zeros the height before skips no further. */
  lemma LongRun(a: nat)
    ensures InvertLowestOne(8 * (a + 1)) <= InvertLowestOne(InvertLowestOne(8 * (a + 1) - 2))
  {
    hide InvertLowestOne;
    InvertEven(4 * a + 3);
    InvertOdd(2 * a + 1);
    InvertEven(4 * a + 2);
    InvertEven(2 * a + 1);
    InvertOdd(a);
    InvertEven(4 * (a + 1));
    InvertEven(2 * (a + 1));
    InvertEven(a + 1);
    LowestOneDown(a + 1);
    assert 8 * (a + 1) - 2 == 2 * (4 * a + 3) && 2 * (4 * a + 2) == 8 * a + 4;
  }

  /** Within a block of two to the `k` heights the walk takes at most the square of `k` turns. */
  lemma {:induction false} TurnsWithin(q: nat, k: nat, x: nat, y: nat)
    requires x < Size(k) && y < Size(k)
    ensures Turns(Block(q, k) + x, Block(q, k) + y) <= Bound(k)
    decreases k, 0
  {
    hide InvertLowestOne, NextHeight, Ones;
    if y < x {
      var h := k - 1;
      BlockHalves(q, h);
      if x < Size(h) {
        TurnsWithin(2 * q, h, x, y);
      } else if y >= Size(h) {
        TurnsWithin(2 * q + 1, h, x - Size(h), y - Size(h));
      } else {
        OnesAtMost(x - Size(h), h);
        TurnsAcross(q, h, x - Size(h), y);
      }
    }
  }

  /** The sum of the first `k` odd numbers. */
  function Bound(k: nat): nat { if k == 0 then 0 else Bound(k - 1) + 2 * (k - 1) + 1 }

  lemma {:induction false} BoundIs(k: nat)
    ensures Bound(k) == k * k
  {
    if k > 0 {
      BoundIs(k - 1);
      assert k * k == (k - 1) * (k - 1) + 2 * (k - 1) + 1;
    }
  }

  /** From the first height of the upper half. */
  lemma FromTheHalf(q: nat, k: nat, y: nat)
    requires y < Size(k)
    ensures Turns(Block(2 * q + 1, k), Block(2 * q, k) + y) <= 1 + Bound(k)
    decreases k, 1
  {
    hide InvertLowestOne, NextHeight, Turns;
    if k == 0 {
      OneTurn(2 * q + 1);
    } else {
      hide Block;
      Halves(q, k);
      var low, high := Block(2 * q, k), Block(2 * q + 1, k);
      Step(high, low + y);
      EvenNext(high, low + y);
      if y == 0 {
        TurnsNone(low, low);
      } else {
        TurnsWithin(2 * q, k, Size(k) - 1, y);
      }
    }
  }

  lemma OneTurn(height: nat)
    requires height > 0
    ensures Turns(height, height - 1) == 1
  {
    hide InvertLowestOne, NextHeight;
    Step(height, height - 1);
    TurnsNone(NextHeight(height, height - 1), height - 1);
  }

  lemma TurnsNone(height: nat, target: nat)
    requires height <= target
    ensures Turns(height, target) == 0
  {
  }

  /** A skip to the lower half, or to its edge, that does not lead too far. */
  lemma SkippedBelow(q: nat, k: nat, y: nat, skip: nat)
    requires k > 0 && y < Size(k) && Block(2 * q, k) + y <= skip <= Block(2 * q, k) + 1
    ensures Turns(skip, Block(2 * q, k) + y) <= Bound(k)
    decreases k, 1
  {
    Halves(q, k);
    hide InvertLowestOne, NextHeight, Turns, Block, Bound;
    TurnsWithin(2 * q, k, skip - Block(2 * q, k), y);
  }

  /** Where the height after an even `M + w` of the upper half skips to. */
  lemma SkipsTo(q: nat, k: nat, w: nat)
    requires k > 0 && w < Size(k) && w % 2 == 0
    ensures var low, high := Block(2 * q, k), Block(2 * q + 1, k);
            var skip := InvertLowestOne(InvertLowestOne(high + w)) + 1;
            if Ones(w) >= 2 then
              && skip == high + InvertLowestOne(InvertLowestOne(w)) + 1
              && InvertLowestOne(InvertLowestOne(w)) < w
              && Ones(InvertLowestOne(InvertLowestOne(w)) + 1) == Ones(w) - 1
            else skip <= low + 1
  {
    hide InvertLowestOne, Ones, Block;
    Halves(q, k);
    OnesNone();
    if w > 0 {
      InvertWithin(2 * q + 1, k, w);
      OnesInvert(w);
      var v := InvertLowestOne(w);
      InvertKeepsEven(w);
      if v > 0 {
        InvertWithin(2 * q + 1, k, v);
        OnesInvert(v);
        InvertKeepsEven(v);
      }
    }
  }

  lemma OnesNone()
    ensures Ones(0) == 0
  {
  }

  lemma {:induction false} AcrossOdd(q: nat, k: nat, z: nat, y: nat)
    requires z < Size(k) && y < Size(k) && z % 2 == 1
    ensures Turns(Block(2 * q + 1, k) + z, Block(2 * q, k) + y) <= 2 * Ones(z) + 1 + Bound(k)
    decreases k, 2 * z + 1
  {
    hide InvertLowestOne, NextHeight, Ones, Turns, Block, Bound;
    Positive(k, z);
    Halves(q, k);
    var low, high := Block(2 * q, k), Block(2 * q + 1, k);
    var h, t, w := high + z, low + y, z - 1;
    OnesEven(w);
    SkipsTo(q, k, w);
    Step(h, t);
    OddNext(h, t);
    var skip := InvertLowestOne(InvertLowestOne(high + w)) + 1;
    if Ones(w) >= 2 {
      TurnsAcross(q, k, skip - high, y);
    } else if skip >= t {
      SkippedBelow(q, k, y, skip);
    } else {
      TurnsAcross(q, k, w, y);
    }
  }

  lemma {:induction false} AcrossEven(q: nat, k: nat, z: nat, y: nat)
    requires 0 < z < Size(k) && y < Size(k) && z % 2 == 0
    ensures Turns(Block(2 * q + 1, k) + z, Block(2 * q, k) + y) <= 2 * Ones(z) + 1 + Bound(k)
    decreases k, 2 * z + 1
  {
    hide InvertLowestOne, NextHeight, Ones, Turns, Block, Bound;
    Positive(k, z);
    Halves(q, k);
    var low, high := Block(2 * q, k), Block(2 * q + 1, k);
    var h, t := high + z, low + y;
    InvertWithin(2 * q + 1, k, z);
    OnesInvert(z);
    EvenNext(h, t);
    if NextHeight(h, t) == InvertLowestOne(h) {
      Step(h, t);
      TurnsAcross(q, k, InvertLowestOne(z), y);
    } else {
      var w := z - 2;
      SkipsTo(q, k, w);
      TwoTurns(h, t);
      var before := InvertLowestOne(InvertLowestOne(high + w)) + 1;
      assert high + w == h - 2;
      if Ones(w) >= 2 {
        OnesBefore(z);
        TurnsAcross(q, k, before - high, y);
      } else {
        SkippedBelow(q, k, y, before);
      }
    }
  }

  /** From the upper half of a block to the lower: a bit less in every other turn, then the lower half. */
  lemma {:induction false} TurnsAcross(q: nat, k: nat, z: nat, y: nat)
    requires z < Size(k) && y < Size(k)
    ensures Turns(Block(2 * q + 1, k) + z, Block(2 * q, k) + y) <= 2 * Ones(z) + 1 + Bound(k)
    decreases k, 2 * z + 2
  {
    hide InvertLowestOne, NextHeight, Turns, Block, Bound;
    if z == 0 {
      FromTheHalf(q, k, y);
    } else if z % 2 == 1 {
      AcrossOdd(q, k, z, y);
    } else {
      AcrossEven(q, k, z, y);
    }
  }

  /** From a height of `n` bits the walk to any lower height takes at most the square of `n` turns. */
  lemma TurnsBound(height: nat, target: nat, n: nat)
    requires height < L.Pow2(n)
    ensures Turns(height, target) <= n * n
  {
    SizeIs(n);
    BlockNone(n);
    BoundIs(n);
    if target < height { TurnsWithin(0, n, height, target); }
  }

  /** At most the square of the number of bits that the height has. */
  ghost predicate FewFor(height: nat, turns: nat) {
    forall n: nat :: height < L.Pow2(n) ==> turns <= n * n
  }

  lemma TurnsFew(height: nat, target: nat)
    ensures FewFor(height, Turns(height, target))
  {
    forall n: nat | height < L.Pow2(n) ensures Turns(height, target) <= n * n { TurnsBound(height, target, n); }
  }

  lemma {:induction false} BlockNone(n: nat)
    ensures Block(0, n) == 0
  {
    if n > 0 { BlockNone(n - 1); }
  }
}
