/** What the FRESH flag is for: a coin that comes and goes within the caches leaves no trace, and reading leaves none. */
module CoinsTraces {

  import opened Collections
  import opened CoinsModel
  import opened CoinsWrites

  /** A coin added to a cache that does not know its outpoint, and spent there, leaves the whole stack as it was. */
  lemma AddSpendNoTrace(env: Env, s: Stack, o: OutPoint, coin: Coin)
    requires s.Cache? && o !in s.top.coins && !coin.IsSpent() && Storable(coin.out.script)
    ensures var r := AddCoin(env, s, o, coin, false);
            r.Done? && r.stack.Cache? && SpendCoin(env, r.stack, o) == (s, true, coin)
  {
    StorableIff(coin);
    var t := AddCoin(env, s, o, coin, false).stack;
    assert t.top.coins - {o} == s.top.coins;
  }

  /** The same if a flush comes in between: the cache that the coin was flushed to has no entry for it. */
  lemma FlushSpendNoTrace(env: Env, s: Stack, o: OutPoint, coin: Coin)
    requires s.Cache? && s.below.Cache? && o !in s.top.coins && o !in s.below.top.coins
    requires !coin.IsSpent() && Storable(coin.out.script)
    ensures var r := AddCoin(env, s, o, coin, false);
            && r.Done? && r.stack.Cache?
            && var below := Flush(env, r.stack).below;
               && below.Cache? && o in below.top.coins
               && var (t, found, moved) := SpendCoin(env, below, o);
                  t.Cache? && found && moved == coin && o !in t.top.coins
  {
    StorableIff(coin);
    hide WriteLayer;
    var t := AddCoin(env, s, o, coin, false).stack;
    assert t.top.coins[o] == CoinEntry(coin, true, true);
    MergedEntry(env, s.below.top, t.top, o);
  }

  lemma MergedEntry(env: Env, top: Layer, over: Layer, o: OutPoint)
    ensures Lookup(WriteLayer(env, top, over).coins, o) == MergedCoin(top.coins, over.coins, o)
  {
  }

  /** Nor has it one if the coin was fresh there, and was spent above and the spending flushed. */
  lemma SpendFlushNoTrace(env: Env, s: Stack, o: OutPoint)
    requires s.Cache? && s.below.Cache? && o !in s.top.coins
    requires o in s.below.top.coins && s.below.top.coins[o].isFresh && !s.below.top.coins[o].coin.IsSpent()
    ensures var (t, found, moved) := SpendCoin(env, s, o);
            && t.Cache? && found && moved == s.below.top.coins[o].coin
            && var below := Flush(env, t).below; below.Cache? && o !in below.top.coins
  {
    hide WriteLayer;
    var kept := s.below.top.coins[o].coin;
    assert GetCoin(env, s.below, o) == (s.below, Some(kept));
    assert FetchCoin(env, s, o).1 == Some(CoinEntry(kept, false, false));
    var t := SpendCoin(env, s, o).0;
    assert t.below == s.below && t.top.coins[o] == CoinEntry(CLEARED, true, false);
    MergedEntry(env, s.below.top, t.top, o);
  }

  /** Reading a coin that is not cached and dropping it again leaves the cache, and its memory counter, as they were. */
  lemma ReadUncache(env: Env, s: Stack, o: OutPoint)
    requires s.Cache? && o !in s.top.coins
    requires GetCoin(env, s.below, o).1.Some? ==> !GetCoin(env, s.below, o).1.value.IsSpent()
    ensures var (t, coin) := GetCoin(env, s, o);
            && coin == GetCoin(env, s.below, o).1 && t.Cache? && (o in t.top.coins <==> coin.Some?)
            && var u := Uncache(env, t, o); u.Cache? && u.top == s.top
  {
    var (below, found) := GetCoin(env, s.below, o);
    var t := FetchCoin(env, s, o).0;
    assert GetCoin(env, s, o).0 == t;
    if found.Some? {
      assert t.top.coins == s.top.coins[o := CoinEntry(found.value, false, false)];
      assert t.top.coins - {o} == s.top.coins;
    }
  }
}
