/** Each edit of the top cache, and each write into the view below, against one flat map. */
module CoinsWrites {

  import opened Collections
  import opened CoinsModel
  import opened CoinsReads

  /** One flat view: what a single map per kind would hold. */
  datatype Flat = Flat(coins: map<OutPoint, Coin>,
                       anchors: map<Hash, Tree>,
                       nullifiers: set<Hash>,
                       block: Hash,
                       anchor: Hash)

  ghost predicate Shows(env: Env, s: Stack, f: Flat) {
    && (forall o :: CoinAt(s, o) == Lookup(f.coins, o))
    && (forall rt :: AnchorAt(env, s, rt) == Lookup(f.anchors, rt))
    && (forall nf :: NullifierAt(s, nf) == (nf in f.nullifiers))
    && BestBlock(s) == f.block
    && BestAnchor(s) == f.anchor
  }

  lemma ShowsSame(env: Env, s: Stack, t: Stack, f: Flat)
    requires Shows(env, s, f) && SameAnswers(env, s, t)
    ensures Shows(env, t, f)
  {
  }

  // ---------- coins ----------

  /** A map with one key set, or removed. */
  function Put<K, V>(m: map<K, V>, k: K, v: Option<V>): map<K, V> {
    if v.Some? then m[k := v.value] else m - {k}
  }

  /** Setting or removing one coin entry of the top cache changes the flat map at that outpoint only. */
  lemma EditCoin(env: Env, s: Stack, f: Flat, o: OutPoint, e: Option<CoinEntry>, usage: int)
    requires s.Cache? && Consistent(env, s) && Shows(env, s, f)
    requires e.Some? ==> EntryOk(e.value, CoinAt(s.below, o))
    ensures var t := Cache(s.top.(coins := Put(s.top.coins, o, e), usage := usage), s.below);
            var seen := if e.Some? then Unspent(e.value.coin) else CoinAt(s.below, o);
            Consistent(env, t) && Shows(env, t, f.(coins := Put(f.coins, o, seen)))
  {
    var t := Cache(s.top.(coins := Put(s.top.coins, o, e), usage := usage), s.below);
    var seen := if e.Some? then Unspent(e.value.coin) else CoinAt(s.below, o);
    forall p ensures CoinAt(t, p) == Lookup(Put(f.coins, o, seen), p) {
      assert CoinAt(s, p) == Lookup(f.coins, p);
      assert p != o ==> CoinAt(t, p) == CoinAt(s, p);
    }
    assert forall rt :: AnchorAt(env, t, rt) == AnchorAt(env, s, rt);
    assert forall nf :: NullifierAt(t, nf) == NullifierAt(s, nf);
    assert LayerOk(env, t.top, t.below);
  }

  /** What is stored at all: the script does not begin with the byte 0x6a, and it has at most 10000 bytes. */
  predicate Storable(script: Script) { !([0x6a] <= script) && |script| <= 10000 }

  lemma StorableIff(coin: Coin)
    ensures Storable(coin.out.script) <==> !coin.IsUnspendable()
  {
    var script := coin.out.script;
    if script != [] { assert [0x6a] <= script <==> script[0] == 0x6a; }
  }

  /** Under its contract `AddCoin` does not throw, and it stores the coin unless it is unspendable. */
  lemma AddCoinWrites(env: Env, s: Stack, f: Flat, o: OutPoint, coin: Coin, overwrite: bool)
    requires s.Cache? && Consistent(env, s) && Shows(env, s, f)
    requires !coin.IsSpent()
    requires overwrite || !Storable(coin.out.script) || o !in f.coins
    ensures var r := AddCoin(env, s, o, coin, overwrite);
            && r.Done? && r.stack.Cache? && r.stack.below == s.below && Consistent(env, r.stack)
            && Shows(env, r.stack, if Storable(coin.out.script) then f.(coins := f.coins[o := coin]) else f)
  {
    StorableIff(coin);
    assert CoinAt(s, o) == Lookup(f.coins, o);
    if !coin.IsUnspendable() {
      var t := AddCoin(env, s, o, coin, overwrite).stack;
      EditCoin(env, s, f, o, Some(t.top.coins[o]), t.top.usage);
    }
  }

  /** Spending removes the coin from the flat map and moves out what the map held. */
  lemma SpendCoinWrites(env: Env, s: Stack, f: Flat, o: OutPoint)
    requires s.Cache? && Consistent(env, s) && Shows(env, s, f)
    ensures var (t, _, coin) := SpendCoin(env, s, o);
            && t.Cache? && Consistent(env, t) && Same(env, s.below, t.below)
            && Shows(env, t, f.(coins := f.coins - {o}))
            && Unspent(coin) == Lookup(f.coins, o)
  {
    FetchCoinReads(env, s, o);
    var (s1, e) := FetchCoin(env, s, o);
    ShowsSame(env, s, s1, f);
    assert CoinAt(s, o) == Lookup(f.coins, o);
    if e.None? {
      assert f.coins - {o} == f.coins;
    } else {
      var t := SpendCoin(env, s, o).0;
      EditCoin(env, s1, f, o, Lookup(t.top.coins, o), t.top.usage);
    }
  }

  /**
    What `SpendCoin` returns is not always what a flat map would return: a spent entry that still
    sits in the cache makes it return true. This says exactly when.
   */
  lemma SpendCoinReturns(env: Env, s: Stack, o: OutPoint)
    requires s.Cache? && Consistent(env, s)
    ensures SpendCoin(env, s, o).1 ==
            (CoinAt(s, o).Some? || o in s.top.coins || (s.below.Base? && o in s.below.db.coins))
  {
    FetchCoinReads(env, s, o);
    if o !in s.top.coins { GetCoinReads(env, s.below, o); }
  }

  /** Spending twice: the second call also returns true although the coin is gone. */
  lemma SpendCoinTwice(env: Env, coin: Coin, o: OutPoint)
    requires env.Ok() && !coin.IsSpent()
    ensures var s := Cache(EMPTY_LAYER, Base(Db(map[o := coin], 1, env.EmptyRoot(), map[], {})));
            var t := SpendCoin(env, s, o).0;
            t.Cache? && CoinAt(t, o).None? && SpendCoin(env, t, o).1
  {
    var db := Base(Db(map[o := coin], 1, env.EmptyRoot(), map[], {}));
    var s := Cache(EMPTY_LAYER, db);
    assert GetCoin(env, db, o) == (db, Some(coin));
    var s1 := FetchCoin(env, s, o).0;
    assert s1.top.coins == map[o := CoinEntry(coin, false, false)];
    var t := SpendCoin(env, s, o).0;
    assert t.top.coins[o] == CoinEntry(CLEARED, true, false);
  }

  lemma UncacheWrites(env: Env, s: Stack, f: Flat, o: OutPoint)
    requires s.Cache? && Consistent(env, s) && Shows(env, s, f)
    ensures var t := Uncache(env, s, o);
            t.Cache? && t.below == s.below && Consistent(env, t) && Shows(env, t, f)
    ensures var held, kept := s.top.coins, Uncache(env, s, o).top.coins;
            && (o in kept <==> o in held && (held[o].isDirty || held[o].isFresh))
            && forall p :: p != o ==> Lookup(kept, p) == Lookup(held, p)
  {
    var t := Uncache(env, s, o);
    if t != s {
      assert CoinAt(s, o) == Lookup(f.coins, o);
      EditCoin(env, s, f, o, None, t.top.usage);
      assert Put(f.coins, o, CoinAt(s.below, o)) == f.coins;
    }
  }

  // ---------- best block, anchors and nullifiers ----------

  /** Setting the null hash makes the view below answer again. */
  lemma SetBestBlockWrites(env: Env, s: Stack, f: Flat, h: Hash)
    requires s.Cache? && Consistent(env, s) && Shows(env, s, f)
    ensures var t := SetBestBlock(s, h);
            Consistent(env, t) && Shows(env, t, f.(block := if h != NULL then h else BestBlock(s.below)))
  {
    var t := SetBestBlock(s, h);
    assert forall o :: CoinAt(t, o) == CoinAt(s, o);
    assert forall rt :: AnchorAt(env, t, rt) == AnchorAt(env, s, rt);
    assert forall nf :: NullifierAt(t, nf) == NullifierAt(s, nf);
  }

  lemma ShowsAnchorChange(env: Env, s: Stack, t: Stack, f: Flat, anchors: map<Hash, Tree>, anchor: Hash)
    requires s.Cache? && t.Cache? && s.below == t.below
    requires t.top == s.top.(anchors := t.top.anchors, anchor := t.top.anchor, usage := t.top.usage)
    requires Shows(env, s, f)
    requires forall rt :: AnchorAt(env, t, rt) == Lookup(anchors, rt)
    requires BestAnchor(t) == anchor
    ensures Shows(env, t, f.(anchors := anchors, anchor := anchor))
  {
    assert forall o :: CoinAt(t, o) == CoinAt(s, o);
    assert forall nf :: NullifierAt(t, nf) == NullifierAt(s, nf);
  }

  /** The best anchor of a cache that was given the root `rt`. */
  function Given(rt: Hash, below: Stack): Hash { if rt != NULL then rt else BestAnchor(below) }

  lemma PushAnchorWrites(env: Env, s: Stack, f: Flat, tree: Tree)
    requires s.Cache? && Consistent(env, s) && Shows(env, s, f)
    ensures var t := PushAnchor(env, s, tree);
            var rt := env.root(tree);
            && t.Cache? && Consistent(env, t) && Same(env, s.below, t.below)
            && Shows(env, t, if f.anchor == rt then f
                             else f.(anchors := f.anchors[rt := tree], anchor := Given(rt, s.below)))
  {
    GetBestAnchorReads(env, s);
    var (s1, current) := GetBestAnchor(s);
    ShowsSame(env, s, s1, f);
    var t, rt := PushAnchor(env, s, tree), env.root(tree);
    if current != rt {
      assert LayerOk(env, t.top, t.below);
      assert forall r :: AnchorAt(env, t, r) == Lookup(f.anchors[rt := tree], r) by {
        assert forall r :: r != rt ==> AnchorAt(env, t, r) == AnchorAt(env, s1, r);
      }
      ShowsAnchorChange(env, s1, t, f, f.anchors[rt := tree], Given(rt, s.below));
    }
  }

  /** The assertion of `PopAnchor`: the root that it takes away must be known. */
  predicate PopAllowed(f: Flat, rt: Hash) {
    rt == f.anchor || f.anchor in f.anchors
  }

  lemma LeaveAnchor(env: Env, s: Stack, f: Flat, gone: Hash, rt: Hash)
    requires s.Cache? && Consistent(env, s) && Shows(env, s, f) && gone in s.top.anchors
    ensures var e := s.top.anchors[gone].(entered := false, isDirty := true);
            var t := Cache(s.top.(anchors := s.top.anchors[gone := e], anchor := rt), s.below);
            Consistent(env, t) && Shows(env, t, f.(anchors := f.anchors - {gone}, anchor := Given(rt, s.below)))
  {
    var e := s.top.anchors[gone].(entered := false, isDirty := true);
    var t := Cache(s.top.(anchors := s.top.anchors[gone := e], anchor := rt), s.below);
    forall r ensures AnchorAt(env, t, r) == Lookup(f.anchors - {gone}, r) {
      assert AnchorAt(env, s, r) == Lookup(f.anchors, r);
    }
    ShowsAnchorChange(env, s, t, f, f.anchors - {gone}, Given(rt, s.below));
  }

  lemma PopAnchorWrites(env: Env, s: Stack, f: Flat, rt: Hash)
    requires s.Cache? && Consistent(env, s) && Shows(env, s, f) && PopAllowed(f, rt)
    ensures var r := PopAnchor(env, s, rt);
            && r.Done? && r.stack.Cache? && Consistent(env, r.stack) && Same(env, s.below, r.stack.below)
            && Shows(env, r.stack, if f.anchor == rt then f
                                   else f.(anchors := f.anchors - {f.anchor}, anchor := Given(rt, s.below)))
  {
    GetBestAnchorReads(env, s);
    var (s1, current) := GetBestAnchor(s);
    ShowsSame(env, s, s1, f);
    if current != rt {
      GetAnchorReads(env, s1, current);
      var (s2, tree) := GetAnchor(env, s1, current);
      ShowsSame(env, s1, s2, f);
      SameTrans(env, s, s1, s2);
      LeaveAnchor(env, s2, f, current, rt);
    }
  }

  function NullifiersOf(spends: seq<Spend>): set<Hash> {
    set d | d in spends :: d.nullifier
  }

  lemma {:induction false} MarkNullifiersAt(marks: map<Hash, NullifierEntry>, spends: seq<Spend>, spent: bool, nf: Hash)
    ensures Lookup(MarkNullifiers(marks, spends, spent), nf) ==
            if nf in NullifiersOf(spends) then Some(NullifierEntry(spent, true)) else Lookup(marks, nf)
    decreases |spends|
  {
    if spends != [] {
      assert spends == [spends[0]] + spends[1..];
      MarkNullifiersAt(marks[spends[0].nullifier := NullifierEntry(spent, true)], spends[1..], spent, nf);
    }
  }

  lemma SetNullifiersWrites(env: Env, s: Stack, f: Flat, tx: Tx, spent: bool)
    requires s.Cache? && Consistent(env, s) && Shows(env, s, f)
    ensures var t := SetNullifiers(s, tx, spent);
            && t.Cache? && t.below == s.below && Consistent(env, t)
            && Shows(env, t, if !tx.shieldedVersion then f
                             else if spent then f.(nullifiers := f.nullifiers + NullifiersOf(tx.spends))
                             else f.(nullifiers := f.nullifiers - NullifiersOf(tx.spends)))
  {
    if tx.shieldedVersion {
      var t := SetNullifiers(s, tx, spent);
      forall nf
        ensures Lookup(t.top.nullifiers, nf) ==
                if nf in NullifiersOf(tx.spends) then Some(NullifierEntry(spent, true)) else Lookup(s.top.nullifiers, nf)
      {
        MarkNullifiersAt(s.top.nullifiers, tx.spends, spent, nf);
      }
      assert forall nf :: NullifierAt(t, nf) == if nf in NullifiersOf(tx.spends) then spent else NullifierAt(s, nf);
      assert forall o :: CoinAt(t, o) == CoinAt(s, o);
      assert forall rt :: AnchorAt(env, t, rt) == AnchorAt(env, s, rt);
      forall nf | nf in t.top.nullifiers
        ensures !t.top.nullifiers[nf].isDirty ==> t.top.nullifiers[nf].entered == NullifierAt(t.below, nf)
      {
        assert Lookup(t.top.nullifiers, nf) == Some(t.top.nullifiers[nf]);
      }
    }
  }

  // ---------- writing into the view below ----------

  /**
    One dirty entry written over the entry of the cache below: it never meets the FRESH error, the
    new entry is sound for the view two levels down, and it shows the child's coin.
   */
  lemma MergeCoinOk(under: Option<CoinEntry>, e: CoinEntry, deep: Option<Coin>)
    requires under.Some? ==> EntryOk(under.value, deep)
    requires e.isDirty && EntryOk(e, if under.Some? then Unspent(under.value.coin) else deep)
    ensures !Misapplied(under, e)
    ensures var r := MergeCoin(under, e);
            && (r.Some? ==> EntryOk(r.value, deep))
            && (if r.Some? then Unspent(r.value.coin) else deep) == Unspent(e.coin)
  {
  }

  lemma MergeCoinsOk(env: Env, s: Stack, over: Layer)
    requires s.Cache? && Consistent(env, s) && LayerOk(env, over, s)
    ensures !WouldThrow(s, over)
    ensures var coins := MergeCoins(s.top.coins, over.coins);
            && (forall o :: o in coins ==> EntryOk(coins[o], CoinAt(s.below, o)))
            && (forall o :: (if o in coins then Unspent(coins[o].coin) else CoinAt(s.below, o)) == CoinAt(Cache(over, s), o))
  {
    var coins := MergeCoins(s.top.coins, over.coins);
    forall o
      ensures o in over.coins ==> !Misapplied(Lookup(s.top.coins, o), over.coins[o])
      ensures o in coins ==> EntryOk(coins[o], CoinAt(s.below, o))
      ensures (if o in coins then Unspent(coins[o].coin) else CoinAt(s.below, o)) == CoinAt(Cache(over, s), o)
    {
      if o in over.coins && over.coins[o].isDirty {
        MergeCoinOk(Lookup(s.top.coins, o), over.coins[o], CoinAt(s.below, o));
      }
      assert Lookup(coins, o) == MergedCoin(s.top.coins, over.coins, o);
      assert CoinAt(Cache(over, s), o) == if o in over.coins then Unspent(over.coins[o].coin) else CoinAt(s, o);
    }
  }

  lemma MergeAnchorsOk(env: Env, s: Stack, over: Layer)
    requires s.Cache? && Consistent(env, s) && LayerOk(env, over, s)
    ensures var anchors := MergeAnchors(s.top.anchors, over.anchors);
            && (forall rt :: rt in anchors ==> AnchorOk(anchors[rt], AnchorAt(env, s.below, rt)))
            && (forall rt :: (if rt in anchors then Shown(anchors[rt]) else AnchorAt(env, s.below, rt))
                             == AnchorAt(env, Cache(over, s), rt))
  {
    var anchors := MergeAnchors(s.top.anchors, over.anchors);
    forall rt
      ensures rt in anchors ==> AnchorOk(anchors[rt], AnchorAt(env, s.below, rt))
      ensures (if rt in anchors then Shown(anchors[rt]) else AnchorAt(env, s.below, rt)) == AnchorAt(env, Cache(over, s), rt)
    {
      assert AnchorAt(env, Cache(over, s), rt) == if rt in over.anchors then Shown(over.anchors[rt]) else AnchorAt(env, s, rt);
      assert AnchorAt(env, s, rt) == if rt in s.top.anchors then Shown(s.top.anchors[rt]) else AnchorAt(env, s.below, rt);
    }
  }

  lemma MergeNullifiersOk(env: Env, s: Stack, over: Layer)
    requires s.Cache? && Consistent(env, s) && LayerOk(env, over, s)
    ensures var marks := MergeNullifiers(s.top.nullifiers, over.nullifiers);
            && (forall nf :: nf in marks ==> (!marks[nf].isDirty ==> marks[nf].entered == NullifierAt(s.below, nf)))
            && (forall nf :: (if nf in marks then marks[nf].entered else NullifierAt(s.below, nf))
                             == NullifierAt(Cache(over, s), nf))
  {
    var marks := MergeNullifiers(s.top.nullifiers, over.nullifiers);
    forall nf
      ensures nf in marks ==> (!marks[nf].isDirty ==> marks[nf].entered == NullifierAt(s.below, nf))
      ensures (if nf in marks then marks[nf].entered else NullifierAt(s.below, nf)) == NullifierAt(Cache(over, s), nf)
    {
      assert NullifierAt(Cache(over, s), nf) == if nf in over.nullifiers then over.nullifiers[nf].entered
             else NullifierAt(s, nf);
      assert NullifierAt(s, nf) == if nf in s.top.nullifiers then s.top.nullifiers[nf].entered else NullifierAt(s.below, nf);
    }
  }

  /** `t` answers as `s` for coins, anchors and nullifiers, but a database always knows the empty root. */
  ghost predicate Carries(env: Env, s: Stack, t: Stack, toDb: bool) {
    && (forall o :: CoinAt(t, o) == CoinAt(s, o))
    && (forall rt :: AnchorAt(env, t, rt) == if toDb && rt == env.EmptyRoot() then Some([]) else AnchorAt(env, s, rt))
    && (forall nf :: NullifierAt(t, nf) == NullifierAt(s, nf))
  }

  lemma WriteDbOk(env: Env, s: Stack, over: Layer)
    requires s.Base? && LayerOk(env, over, s)
    ensures Carries(env, Cache(over, s), BatchWrite(env, s, over), true)
  {
    var t, c := BatchWrite(env, s, over), Cache(over, s);
    forall o ensures CoinAt(t, o) == CoinAt(c, o) {
      assert CoinAt(c, o) == if o in over.coins then Unspent(over.coins[o].coin) else CoinAt(s, o);
    }
    forall rt | rt != env.EmptyRoot() ensures AnchorAt(env, t, rt) == AnchorAt(env, c, rt) {
      assert AnchorAt(env, c, rt) == if rt in over.anchors then Shown(over.anchors[rt]) else AnchorAt(env, s, rt);
    }
    forall nf ensures NullifierAt(t, nf) == NullifierAt(c, nf) {
      assert NullifierAt(c, nf) == if nf in over.nullifiers then over.nullifiers[nf].entered else NullifierAt(s, nf);
    }
  }

  /**
    Writing a cache into the view below: no throw but for a null block hash at the database, the view
    below now answers as the child did, and nothing deeper changed.
   */
  lemma BatchWriteWrites(env: Env, s: Stack, over: Layer)
    requires Consistent(env, s) && LayerOk(env, over, s)
    ensures WouldThrow(s, over) <==> s.Base? && over.block == NULL
    ensures var t := BatchWrite(env, s, over);
            && t.Cache? == s.Cache? && (s.Cache? ==> t.below == s.below)
            && Consistent(env, t) && Carries(env, Cache(over, s), t, s.Base?)
  {
    var t := BatchWrite(env, s, over);
    if s.Base? {
      WriteDbOk(env, s, over);
    } else {
      MergeCoinsOk(env, s, over);
      MergeAnchorsOk(env, s, over);
      MergeNullifiersOk(env, s, over);
      forall o ensures CoinAt(t, o) == CoinAt(Cache(over, s), o) {
        assert CoinAt(t, o) == if o in t.top.coins then Unspent(t.top.coins[o].coin) else CoinAt(s.below, o);
      }
      forall rt ensures AnchorAt(env, t, rt) == AnchorAt(env, Cache(over, s), rt) {
        assert AnchorAt(env, t, rt) == if rt in t.top.anchors then Shown(t.top.anchors[rt]) else AnchorAt(env, s.below, rt);
      }
      forall nf ensures NullifierAt(t, nf) == NullifierAt(Cache(over, s), nf) {
        assert NullifierAt(t, nf) == if nf in t.top.nullifiers then t.top.nullifiers[nf].entered else NullifierAt(s.below, nf);
      }
    }
  }

  /** The hashes after a cache was written down: handed on as they are, but the database keeps its root over a null one. */
  ghost predicate HandsOn(s: Stack, t: Stack)
    requires s.Cache?
  {
    && t.Cache? && t.below.Cache? == s.below.Cache? && (s.below.Cache? ==> t.below.below == s.below.below)
    && |Blocks(s)| >= 2 && Blocks(t) == [s.top.block, s.top.block] + Blocks(s)[2..]
    && |Roots(s)| >= 2
    && Roots(t) == [s.top.anchor, if s.below.Base? && s.top.anchor == NULL then Roots(s)[1] else s.top.anchor] + Roots(s)[2..]
  }

  lemma WrittenHashes(env: Env, s: Stack, top: Layer)
    requires s.Cache? && top.block == s.top.block && top.anchor == s.top.anchor
    ensures HandsOn(s, Cache(top, BatchWrite(env, s.below, s.top)))
  {
    var t := Cache(top, BatchWrite(env, s.below, s.top));
    if s.below.Cache? {
      assert Blocks(s) == [s.top.block, s.below.top.block] + Blocks(s.below.below);
      assert Roots(s) == [s.top.anchor, s.below.top.anchor] + Roots(s.below.below);
      assert Blocks(t) == [s.top.block, s.top.block] + Blocks(s.below.below);
      assert Roots(t) == [s.top.anchor, s.top.anchor] + Roots(s.below.below);
    }
  }

  /** `Flush` empties the top cache; both the top and the view below then answer what the top did. */
  lemma FlushWrites(env: Env, s: Stack)
    requires s.Cache? && Consistent(env, s)
    ensures WouldThrow(s.below, s.top) <==> s.below.Base? && s.top.block == NULL
    ensures var t := Flush(env, s);
            && Consistent(env, t) && HandsOn(s, t)
            && Carries(env, s, t, s.below.Base?) && Carries(env, s, t.below, s.below.Base?)
    ensures Flush(env, s).top == EMPTY_LAYER.(block := s.top.block, anchor := s.top.anchor)
  {
    BatchWriteWrites(env, s.below, s.top);
    var t := Flush(env, s);
    WrittenHashes(env, s, t.top);
    assert s == Cache(s.top, s.below);
    assert SameData(env, t, t.below) by { hide Blocks, Roots; EmptyLayerShows(env, t); }
  }

  lemma EmptyLayerShows(env: Env, t: Stack)
    requires t.Cache? && t.top.coins == map[] && t.top.anchors == map[] && t.top.nullifiers == map[]
    ensures SameData(env, t, t.below)
  {
    forall o ensures CoinAt(t, o) == CoinAt(t.below, o) {}
    forall rt ensures AnchorAt(env, t, rt) == AnchorAt(env, t.below, rt) {}
    forall nf ensures NullifierAt(t, nf) == NullifierAt(t.below, nf) {}
  }

  /** A clean copy of a layer agrees with any view that answers what the layer answered. */
  lemma CleanCopyOk(env: Env, s: Stack, below: Stack, usage: int, toDb: bool)
    requires s.Cache? && LayerOk(env, s.top, s.below) && Carries(env, s, below, toDb)
    ensures var top := Layer(CleanPart(s.top.coins), s.top.block, s.top.anchor,
                             if toDb then map[] else CleanAnchors(s.top.anchors),
                             if toDb then map[] else CleanNullifiers(s.top.nullifiers), usage);
            LayerOk(env, top, below)
  {
    forall o | o in s.top.coins ensures CoinAt(below, o) == Unspent(s.top.coins[o].coin) {
      assert CoinAt(below, o) == CoinAt(s, o);
    }
    forall rt | rt in s.top.anchors && !toDb ensures AnchorAt(env, below, rt) == Shown(s.top.anchors[rt]) {
      assert AnchorAt(env, below, rt) == AnchorAt(env, s, rt);
    }
    forall nf | nf in s.top.nullifiers ensures NullifierAt(below, nf) == s.top.nullifiers[nf].entered {
      assert NullifierAt(below, nf) == NullifierAt(s, nf);
    }
  }

  /** A layer of clean entries adds nothing to the view below it, but for its own best hashes. */
  lemma CleanLayerShows(env: Env, top: Layer, below: Stack)
    requires LayerOk(env, top, below)
    requires forall o :: o in top.coins ==> !top.coins[o].isDirty
    requires forall rt :: rt in top.anchors ==> !top.anchors[rt].isDirty
    requires forall nf :: nf in top.nullifiers ==> !top.nullifiers[nf].isDirty
    ensures SameData(env, below, Cache(top, below))
  {
    var t := Cache(top, below);
    assert forall o :: CoinAt(t, o) == CoinAt(below, o);
    assert forall rt :: AnchorAt(env, t, rt) == AnchorAt(env, below, rt);
    assert forall nf :: NullifierAt(t, nf) == NullifierAt(below, nf);
  }

  /** `Sync` does the same while keeping the unspent coins in the top cache. */
  lemma SyncWrites(env: Env, s: Stack)
    requires s.Cache? && Consistent(env, s)
    ensures WouldThrow(s.below, s.top) <==> s.below.Base? && s.top.block == NULL
    ensures var t := Sync(env, s);
            && Consistent(env, t) && HandsOn(s, t)
            && Carries(env, s, t, s.below.Base?) && Carries(env, s, t.below, s.below.Base?)
    ensures var held, kept := s.top.coins, Sync(env, s).top.coins;
            && (forall o :: o in kept <==> o in held && !held[o].coin.IsSpent())
            && (forall o :: o in kept ==> kept[o] == CoinEntry(held[o].coin, false, false))
  {
    BatchWriteWrites(env, s.below, s.top);
    assert s == Cache(s.top, s.below);
    var t := Sync(env, s);
    WrittenHashes(env, s, t.top);
    CleanCopyOk(env, s, t.below, t.top.usage, s.below.Base?);
    CleanLayerShows(env, t.top, t.below);
    assert t == Cache(t.top, t.below);
  }

  /**
    With both best hashes of its own, or straight above the database with a best block, a cache that is
    flushed or synced changes no answer at all, unless the empty root was popped.
   */
  lemma WrittenAlike(env: Env, s: Stack, t: Stack)
    requires s.Cache? && HandsOn(s, t) && Carries(env, s, t, s.below.Base?) && Carries(env, s, t.below, s.below.Base?)
    requires s.top.block != NULL && (s.top.anchor != NULL || s.below.Base?)
    requires s.below.Base? ==> AnchorAt(env, s, env.EmptyRoot()) == Some([])
    ensures SameAnswers(env, s, t) && SameAnswers(env, s, t.below)
  {
    BestIs(s);
    BestIs(t);
    BestIs(t.below);
    assert Blocks(t)[0] == Blocks(t)[1] == s.top.block && Roots(t)[0] == s.top.anchor;
    assert Blocks(t)[1..] == Blocks(t.below) && Roots(t)[1..] == Roots(t.below);
    assert s.below.Base? ==> Roots(s)[1..] == [s.below.db.anchor] && |Roots(t.below)| == 1;
  }
}
