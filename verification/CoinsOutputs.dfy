/** `AddCoins` (src/coins.cpp): the outputs of a whole transaction, with and without a check for what is there. */
module CoinsOutputs {

  import opened Collections
  import opened CoinsModel
  import opened CoinsReads
  import opened CoinsWrites

  function OutputCoin(tx: Tx, height: nat, i: nat): Coin
    requires i < |tx.outputs|
  {
    Coin(tx.outputs[i], height, tx.coinbase)
  }

  /** `AddCoins` from output `i` on. */
  function AddCoins(env: Env, s: Stack, tx: Tx, height: nat, check: bool, i: nat): (r: Outcome)
    requires s.Cache? && i <= |tx.outputs|
    decreases |tx.outputs| - i
  {
    if i == |tx.outputs| then Done(s)
    else
      var o := OutPoint(tx.id, i);
      var (s1, entry) := if check then FetchCoin(env, s, o) else (s, None);
      var overwrite := if check then entry.Some? && !entry.value.coin.IsSpent() else tx.coinbase;
      var r := AddCoin(env, s1, o, OutputCoin(tx, height, i), overwrite);
      if r.Threw? || !r.stack.Cache? then r else AddCoins(env, r.stack, tx, height, check, i + 1)
  }

  // ---------- what should be there afterwards ----------

  predicate OutputNotNull(tx: Tx) {
    forall k :: 0 <= k < |tx.outputs| ==> tx.outputs[k].value != -1
  }

  /** The coins of the outputs from `i` up to `n` that are stored at all. */
  function Outputs(tx: Tx, height: nat, i: nat, n: nat): map<OutPoint, Coin>
    requires n <= |tx.outputs|
  {
    map k: nat | i <= k < n && Storable(tx.outputs[k].script) ::
      OutPoint(tx.id, k) := Coin(tx.outputs[k], height, tx.coinbase)
  }

  /** Coins after output `i`. */
  function WithOutput(coins: map<OutPoint, Coin>, tx: Tx, height: nat, i: nat): map<OutPoint, Coin>
    requires i < |tx.outputs|
  {
    if Storable(tx.outputs[i].script) then coins[OutPoint(tx.id, i) := OutputCoin(tx, height, i)] else coins
  }

  lemma OutputAt(tx: Tx, height: nat, i: nat, n: nat, o: OutPoint)
    requires n <= |tx.outputs|
    ensures o in Outputs(tx, height, i, n) <==> o.hash == tx.id && i <= o.n < n && Storable(tx.outputs[o.n].script)
    ensures o in Outputs(tx, height, i, n) ==> Outputs(tx, height, i, n)[o] == OutputCoin(tx, height, o.n)
  {
    hide Storable;
    if o.hash == tx.id && i <= o.n < n && Storable(tx.outputs[o.n].script) {
      assert o == OutPoint(tx.id, o.n);
    }
  }

  lemma OutputsFirst(tx: Tx, height: nat, i: nat, n: nat, coins: map<OutPoint, Coin>)
    requires i < n <= |tx.outputs|
    ensures coins + Outputs(tx, height, i, n) == WithOutput(coins, tx, height, i) + Outputs(tx, height, i + 1, n)
  {
    hide Storable, Outputs;
    var all, rest := Outputs(tx, height, i, n), Outputs(tx, height, i + 1, n);
    var l, r := coins + all, WithOutput(coins, tx, height, i) + rest;
    forall o ensures Lookup(l, o) == Lookup(r, o) {
      OutputAt(tx, height, i, n, o);
      OutputAt(tx, height, i + 1, n, o);
      assert o.hash == tx.id && o.n == i ==> o == OutPoint(tx.id, i);
    }
    SameMaps(l, r);
  }

  lemma SameMaps(l: map<OutPoint, Coin>, r: map<OutPoint, Coin>)
    requires forall o :: Lookup(l, o) == Lookup(r, o)
    ensures l == r
  {
    assert forall o :: o in l <==> Lookup(l, o).Some?;
    assert forall o :: o in r <==> Lookup(r, o).Some?;
    assert forall o :: o in l ==> Lookup(l, o) == Some(l[o]) && Lookup(r, o) == Some(r[o]);
  }

  lemma NoneMore(tx: Tx, height: nat, i: nat, coins: map<OutPoint, Coin>)
    requires i <= |tx.outputs|
    ensures coins + Outputs(tx, height, i, i) == coins
  {
    assert Outputs(tx, height, i, i) == map[];
  }

  // ---------- with checking ----------

  lemma AddOutput(env: Env, s: Stack, f: Flat, o: OutPoint, coin: Coin)
    requires s.Cache? && Consistent(env, s) && Shows(env, s, f) && !coin.IsSpent()
    ensures var (s1, entry) := FetchCoin(env, s, o);
            var r := AddCoin(env, s1, o, coin, entry.Some? && !entry.value.coin.IsSpent());
            && r.Done? && r.stack.Cache? && Consistent(env, r.stack) && Same(env, s.below, r.stack.below)
            && Shows(env, r.stack, if Storable(coin.out.script) then f.(coins := f.coins[o := coin]) else f)
  {
    FetchCoinReads(env, s, o);
    var (s1, entry) := FetchCoin(env, s, o);
    ShowsSame(env, s, s1, f);
    assert CoinAt(s, o) == Lookup(f.coins, o);
    AddCoinWrites(env, s1, f, o, coin, entry.Some? && !entry.value.coin.IsSpent());
  }

  lemma AddCoinsUnfold(env: Env, s: Stack, tx: Tx, height: nat, i: nat, s2: Stack)
    requires s.Cache? && s2.Cache? && i < |tx.outputs|
    requires var (s1, entry) := FetchCoin(env, s, OutPoint(tx.id, i));
             AddCoin(env, s1, OutPoint(tx.id, i), OutputCoin(tx, height, i),
                     entry.Some? && !entry.value.coin.IsSpent()) == Done(s2)
    ensures AddCoins(env, s, tx, height, true, i) == AddCoins(env, s2, tx, height, true, i + 1)
  {
  }

  /**
    With checking on, `AddCoins` meets the contract of `AddCoin` by itself: for any transaction
    and any stack it does not throw, and the flat map gains exactly the outputs that are stored.
   */
  lemma {:induction false} AddCoinsChecked(env: Env, s: Stack, f: Flat, tx: Tx, height: nat, i: nat)
    requires s.Cache? && Consistent(env, s) && Shows(env, s, f) && i <= |tx.outputs| && OutputNotNull(tx)
    ensures var r := AddCoins(env, s, tx, height, true, i);
            && r.Done? && r.stack.Cache? && Consistent(env, r.stack)
            && Same(env, s.below, r.stack.below)
            && Shows(env, r.stack, f.(coins := f.coins + Outputs(tx, height, i, |tx.outputs|)))
    decreases |tx.outputs| - i
  {
    hide Storable, Outputs, Shows, Consistent, Same, FetchCoin, AddCoin;
    if i == |tx.outputs| {
      NoneMore(tx, height, i, f.coins);
      assert Same(env, s.below, s.below) by { SameRefl(env, s.below); }
    } else {
      var o, coin := OutPoint(tx.id, i), OutputCoin(tx, height, i);
      AddOutput(env, s, f, o, coin);
      var (s1, entry) := FetchCoin(env, s, o);
      var s2 := AddCoin(env, s1, o, coin, entry.Some? && !entry.value.coin.IsSpent()).stack;
      var f2 := if Storable(coin.out.script) then f.(coins := f.coins[o := coin]) else f;
      AddCoinsUnfold(env, s, tx, height, i, s2);
      AddCoinsChecked(env, s2, f2, tx, height, i + 1);
      OutputsFirst(tx, height, i, |tx.outputs|, f.coins);
      SameTrans(env, s.below, s2.below, AddCoins(env, s2, tx, height, true, i + 1).stack.below);
    }
  }

  // ---------- without checking ----------

  /** No output to be stored is known yet, or the transaction may overwrite. */
  predicate Unknown(f: Flat, tx: Tx, i: nat) {
    tx.coinbase || forall k: nat :: i <= k < |tx.outputs| && Storable(tx.outputs[k].script) ==> OutPoint(tx.id, k) !in f.coins
  }

  /**
    Without checking, as for every block that is connected: if the transaction is a coinbase or none of
    the outputs to be stored is known, nothing is thrown, the flat map gains exactly the outputs that
    are stored, and nothing below the cache changes.
   */
  lemma {:induction false} AddCoinsUnchecked(env: Env, s: Stack, f: Flat, tx: Tx, height: nat, i: nat)
    requires s.Cache? && Consistent(env, s) && Shows(env, s, f) && i <= |tx.outputs| && OutputNotNull(tx)
    requires Unknown(f, tx, i)
    ensures var r := AddCoins(env, s, tx, height, false, i);
            && r.Done? && r.stack.Cache? && Consistent(env, r.stack) && r.stack.below == s.below
            && Shows(env, r.stack, f.(coins := f.coins + Outputs(tx, height, i, |tx.outputs|)))
    decreases |tx.outputs| - i
  {
    hide Storable, Outputs, Shows, Consistent, AddCoin;
    if i == |tx.outputs| {
      NoneMore(tx, height, i, f.coins);
    } else {
      var o, coin := OutPoint(tx.id, i), OutputCoin(tx, height, i);
      AddCoinWrites(env, s, f, o, coin, tx.coinbase);
      var s2 := AddCoin(env, s, o, coin, tx.coinbase).stack;
      var f2 := if Storable(coin.out.script) then f.(coins := f.coins[o := coin]) else f;
      AddCoinsUnchecked(env, s2, f2, tx, height, i + 1);
      OutputsFirst(tx, height, i, |tx.outputs|, f.coins);
    }
  }

  /** The coin of an output lies unspent in the cache and may not be overwritten. */
  predicate Blocked(top: Layer, tx: Tx, k: nat)
    requires k < |tx.outputs|
  {
    var o := OutPoint(tx.id, k);
    !tx.coinbase && Storable(tx.outputs[k].script) && o in top.coins && !top.coins[o].coin.IsSpent()
  }

  function CoinsOf(top: Layer): map<OutPoint, Coin> {
    map o | o in top.coins :: top.coins[o].coin
  }

  lemma AddsOne(env: Env, s: Stack, tx: Tx, height: nat, i: nat)
    requires s.Cache? && i < |tx.outputs|
    ensures var r := AddCoin(env, s, OutPoint(tx.id, i), OutputCoin(tx, height, i), tx.coinbase);
            && r.Threw? == Blocked(s.top, tx, i)
            && (r.Threw? ==> r.partial.Cache? && r.partial.below == s.below && CoinsOf(r.partial.top) == CoinsOf(s.top))
            && (r.Done? ==> r.stack.Cache? && r.stack.below == s.below
                            && CoinsOf(r.stack.top) == WithOutput(CoinsOf(s.top), tx, height, i)
                            && forall k :: i < k < |tx.outputs| ==> Blocked(r.stack.top, tx, k) == Blocked(s.top, tx, k))
  {
    StorableIff(OutputCoin(tx, height, i));
    hide Storable;
  }

  /** For any cache: the outputs are stored in turn up to the first that is blocked, and that one makes it throw. */
  lemma {:induction false} AddCoinsStops(env: Env, s: Stack, tx: Tx, height: nat, i: nat) returns (n: nat)
    requires s.Cache? && i <= |tx.outputs|
    ensures i <= n <= |tx.outputs| && (forall k :: i <= k < n ==> !Blocked(s.top, tx, k))
    ensures n < |tx.outputs| ==> Blocked(s.top, tx, n)
    ensures var r := AddCoins(env, s, tx, height, false, i);
            && r.Threw? == (n < |tx.outputs|)
            && var t := if r.Threw? then r.partial else r.stack;
               t.Cache? && t.below == s.below && CoinsOf(t.top) == CoinsOf(s.top) + Outputs(tx, height, i, n)
    decreases |tx.outputs| - i
  {
    hide Storable, Outputs, Blocked, AddCoin, CoinsOf;
    if i == |tx.outputs| {
      n := i;
    } else {
      AddsOne(env, s, tx, height, i);
      var r := AddCoin(env, s, OutPoint(tx.id, i), OutputCoin(tx, height, i), tx.coinbase);
      if r.Threw? {
        n := i;
      } else {
        n := AddCoinsStops(env, r.stack, tx, height, i + 1);
        OutputsFirst(tx, height, i, n, CoinsOf(s.top));
      }
    }
    if n == i {
      assert CoinsOf(s.top) + Outputs(tx, height, i, i) == CoinsOf(s.top) by { NoneMore(tx, height, i, CoinsOf(s.top)); }
    }
  }

  /** Exactly when unchecked adding throws, for any cache: what lies further down is not looked at. */
  lemma AddCoinsThrows(env: Env, s: Stack, tx: Tx, height: nat)
    requires s.Cache?
    ensures AddCoins(env, s, tx, height, false, 0).Threw? <==>
            exists k :: 0 <= k < |tx.outputs| && Blocked(s.top, tx, k)
  {
    hide Blocked;
    var n := AddCoinsStops(env, s, tx, height, 0);
  }
}
