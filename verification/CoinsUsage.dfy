/** The memory counter of a cache. */
module CoinsUsage {

  import opened Collections
  import opened CoinsModel
  import opened CoinsReads
  import opened CoinsWrites
  import opened CoinsRuns

  // ---------- how the recomputed sum moves ----------

  function Cost(env: Env, e: Option<CoinEntry>): nat {
    if e.Some? then env.scriptUsage(e.value.coin.out.script) else 0
  }

  lemma CoinUsagePut(env: Env, coins: map<OutPoint, CoinEntry>, o: OutPoint, e: Option<CoinEntry>)
    ensures CoinUsage(env, Put(coins, o, e)) == CoinUsage(env, coins) - Cost(env, Lookup(coins, o)) + Cost(env, e)
  {
    var costs, costs' := CoinCosts(env, coins), CoinCosts(env, Put(coins, o, e));
    if e.Some? {
      assert costs' == costs[o := Cost(env, e)];
      if o in coins { TotalUpdate(costs, o, Cost(env, e)); } else { TotalInsert(costs, o, Cost(env, e)); }
    } else if o in coins {
      assert costs' == costs - {o};
      TotalRemove(costs, o);
    } else {
      assert costs' == costs;
    }
  }

  lemma AnchorUsagePut(env: Env, anchors: map<Hash, AnchorEntry>, rt: Hash, e: AnchorEntry)
    ensures AnchorUsage(env, anchors[rt := e]) ==
            AnchorUsage(env, anchors) - (if rt in anchors then env.treeUsage(anchors[rt].tree) else 0) + env.treeUsage(e.tree)
  {
    var costs, cost := AnchorCosts(env, anchors), env.treeUsage(e.tree);
    assert AnchorCosts(env, anchors[rt := e]) == costs[rt := cost];
    if rt in anchors { TotalUpdate(costs, rt, cost); } else { TotalInsert(costs, rt, cost); }
  }

  lemma CoinUsageParts(env: Env, coins: map<OutPoint, CoinEntry>)
    ensures CoinUsage(env, coins) == CoinUsage(env, SpentPart(coins)) + CoinUsage(env, CleanPart(coins))
  {
    var a, b := CoinCosts(env, SpentPart(coins)), CoinCosts(env, CleanPart(coins));
    assert CoinCosts(env, coins) == a + b;
    TotalUnion(a, b);
  }

  // ---------- reading ----------

  lemma {:induction false} FetchCoinUsage(env: Env, s: Stack, o: OutPoint)
    requires s.Cache? && AllUsageExact(env, s)
    ensures AllUsageExact(env, FetchCoin(env, s, o).0)
    decreases s, 0
  {
    if o !in s.top.coins {
      GetCoinUsage(env, s.below, o);
      var found := GetCoin(env, s.below, o).1;
      if found.Some? {
        CoinUsagePut(env, s.top.coins, o, Some(CoinEntry(found.value, false, found.value.IsSpent())));
      }
    }
  }

  lemma {:induction false} GetCoinUsage(env: Env, s: Stack, o: OutPoint)
    requires AllUsageExact(env, s)
    ensures AllUsageExact(env, GetCoin(env, s, o).0)
    decreases s, 1
  {
    if s.Cache? { FetchCoinUsage(env, s, o); }
  }

  lemma {:induction false} GetAnchorUsage(env: Env, s: Stack, rt: Hash)
    requires AllUsageExact(env, s)
    ensures AllUsageExact(env, GetAnchor(env, s, rt).0)
  {
    if s.Cache? && rt !in s.top.anchors {
      GetAnchorUsage(env, s.below, rt);
      var found := GetAnchor(env, s.below, rt).1;
      if found.Some? { AnchorUsagePut(env, s.top.anchors, rt, AnchorEntry(true, found.value, false)); }
    }
  }

  lemma {:induction false} GetNullifierUsage(env: Env, s: Stack, nf: Hash)
    requires AllUsageExact(env, s)
    ensures AllUsageExact(env, GetNullifier(s, nf).0)
  {
    if s.Cache? && nf !in s.top.nullifiers { GetNullifierUsage(env, s.below, nf); }
  }

  lemma {:induction false} GetBestBlockUsage(env: Env, s: Stack)
    requires AllUsageExact(env, s)
    ensures AllUsageExact(env, GetBestBlock(s).0)
  {
    if s.Cache? && s.top.block == NULL { GetBestBlockUsage(env, s.below); }
  }

  lemma {:induction false} GetBestAnchorUsage(env: Env, s: Stack)
    requires AllUsageExact(env, s)
    ensures AllUsageExact(env, GetBestAnchor(s).0)
  {
    if s.Cache? && s.top.anchor == NULL { GetBestAnchorUsage(env, s.below); }
  }

  lemma {:induction false} HaveInputsUsage(env: Env, s: Stack, inputs: seq<OutPoint>)
    requires s.Cache? && AllUsageExact(env, s)
    ensures AllUsageExact(env, HaveInputs(env, s, inputs).0)
    decreases |inputs|
  {
    if inputs != [] {
      FetchCoinUsage(env, s, inputs[0]);
      var (s', entry) := FetchCoin(env, s, inputs[0]);
      if entry.Some? && !entry.value.coin.IsSpent() { HaveInputsUsage(env, s', inputs[1..]); }
    }
  }

  lemma {:induction false} HaveShieldedUsage(env: Env, s: Stack, spends: seq<Spend>)
    requires AllUsageExact(env, s)
    ensures AllUsageExact(env, HaveShielded(env, s, spends).0)
    decreases |spends|
  {
    if spends != [] {
      GetNullifierUsage(env, s, spends[0].nullifier);
      var s1 := GetNullifier(s, spends[0].nullifier).0;
      GetAnchorUsage(env, s1, spends[0].anchor);
      HaveShieldedUsage(env, GetAnchor(env, s1, spends[0].anchor).0, spends[1..]);
    }
  }

  // ---------- editing ----------

  lemma AddCoinUsage(env: Env, s: Stack, o: OutPoint, coin: Coin, overwrite: bool)
    requires s.Cache? && AllUsageExact(env, s)
    requires AddCoin(env, s, o, coin, overwrite).Done?
    ensures AllUsageExact(env, AddCoin(env, s, o, coin, overwrite).stack)
  {
    if !coin.IsUnspendable() {
      var t := AddCoin(env, s, o, coin, overwrite).stack;
      CoinUsagePut(env, s.top.coins, o, Some(t.top.coins[o]));
    }
  }

  /** The throw leaves the counter short by the usage of the coin that was already there. */
  lemma AddCoinThrowUsage(env: Env, s: Stack, o: OutPoint, coin: Coin)
    requires s.Cache? && UsageExact(env, s.top)
    requires !coin.IsUnspendable() && o in s.top.coins && !s.top.coins[o].coin.IsSpent()
    ensures var r := AddCoin(env, s, o, coin, false);
            && r.Threw? && r.partial.Cache?
            && (UsageExact(env, r.partial.top) <==> env.scriptUsage(s.top.coins[o].coin.out.script) == 0)
  {
  }

  lemma SpendCoinUsage(env: Env, s: Stack, o: OutPoint)
    requires s.Cache? && AllUsageExact(env, s) && env.Ok()
    ensures AllUsageExact(env, SpendCoin(env, s, o).0)
  {
    FetchCoinUsage(env, s, o);
    var (s1, e) := FetchCoin(env, s, o);
    if e.Some? {
      var t := SpendCoin(env, s, o).0;
      CoinUsagePut(env, s1.top.coins, o, Lookup(t.top.coins, o));
    }
  }

  lemma UncacheUsage(env: Env, s: Stack, o: OutPoint)
    requires s.Cache? && AllUsageExact(env, s)
    ensures AllUsageExact(env, Uncache(env, s, o))
  {
    CoinUsagePut(env, s.top.coins, o, None);
  }

  lemma PushAnchorUsage(env: Env, s: Stack, tree: Tree)
    requires s.Cache? && AllUsageExact(env, s)
    ensures AllUsageExact(env, PushAnchor(env, s, tree))
  {
    GetBestAnchorUsage(env, s);
    AnchorUsagePut(env, GetBestAnchor(s).0.top.anchors, env.root(tree), AnchorEntry(true, tree, true));
  }

  lemma PopAnchorUsage(env: Env, s: Stack, rt: Hash)
    requires s.Cache? && AllUsageExact(env, s)
    requires PopAnchor(env, s, rt).Done?
    ensures AllUsageExact(env, PopAnchor(env, s, rt).stack)
  {
    GetBestAnchorUsage(env, s);
    var (s1, current) := GetBestAnchor(s);
    if current != rt {
      GetAnchorUsage(env, s1, current);
      var s2 := GetAnchor(env, s1, current).0;
      AnchorUsagePut(env, s2.top.anchors, current, s2.top.anchors[current].(entered := false, isDirty := true));
    }
  }

  lemma BatchWriteUsage(env: Env, s: Stack, over: Layer)
    requires AllUsageExact(env, s)
    ensures AllUsageExact(env, BatchWrite(env, s, over))
  {
  }

  lemma AnchorUsageClean(env: Env, anchors: map<Hash, AnchorEntry>)
    ensures AnchorUsage(env, CleanAnchors(anchors)) == AnchorUsage(env, anchors)
  {
    assert AnchorCosts(env, CleanAnchors(anchors)) == AnchorCosts(env, anchors);
  }

  /**
    After `Sync` the counter is exact when a cache is below. Straight above the database it is
    exact only if no memory was counted for anchors: the database empties the anchor map and
    nobody lowers the counter.
   */
  lemma SyncUsage(env: Env, s: Stack)
    requires s.Cache? && AllUsageExact(env, s)
    ensures AllUsageExact(env, Sync(env, s)) <==> (s.below.Cache? || AnchorUsage(env, s.top.anchors) == 0)
  {
    CoinUsageParts(env, s.top.coins);
    BatchWriteUsage(env, s.below, s.top);
    var t := Sync(env, s);
    assert AllUsageExact(env, t) == UsageExact(env, t.top);
    if s.below.Cache? {
      AnchorUsageClean(env, s.top.anchors);
    } else {
      assert AnchorUsage(env, t.top.anchors) == 0;
    }
  }

  lemma FlushUsage(env: Env, s: Stack)
    requires s.Cache? && AllUsageExact(env, s)
    ensures AllUsageExact(env, Flush(env, s))
  {
    BatchWriteUsage(env, s.below, s.top);
  }

  predicate SyncsOverDb(s: Stack, op: Op)
    requires s.Cache?
  {
    op.SyncTop? && s.below.Base?
  }

  lemma ReadUsage(env: Env, s: Stack, op: Op)
    requires s.Cache? && AllUsageExact(env, s) && IsRead(op) && Step(env, s, op).Some?
    ensures AllUsageExact(env, Step(env, s, op).value.0)
  {
    match op
    case ReadCoin(o) => GetCoinUsage(env, s, o);
    case ReadBlock => GetBestBlockUsage(env, s);
    case ReadAnchor(rt) => GetAnchorUsage(env, s, rt);
    case ReadBestAnchor => GetBestAnchorUsage(env, s);
    case ReadNullifier(nf) => GetNullifierUsage(env, s, nf);
    case CheckShielded(tx) => HaveShieldedUsage(env, s, tx.spends);
    case CheckInputs(tx) => HaveInputsUsage(env, s, tx.inputs);
  }

  lemma EditUsage(env: Env, s: Stack, op: Op)
    requires s.Cache? && AllUsageExact(env, s) && env.Ok() && IsEdit(op) && Step(env, s, op).Some?
    ensures AllUsageExact(env, Step(env, s, op).value.0)
  {
    match op
    case AddOne(o, coin, overwrite) => AddCoinUsage(env, s, o, coin, overwrite);
    case SpendOne(o) => SpendCoinUsage(env, s, o);
    case Forget(o) => UncacheUsage(env, s, o);
    case WriteBlock(h) =>
    case Push(tree) => PushAnchorUsage(env, s, tree);
    case Pop(rt) => PopAnchorUsage(env, s, rt);
    case Mark(tx, spent) =>
  }

  /** Every operation keeps the counters exact, but for `Sync` straight above the database. */
  lemma StepUsage(env: Env, s: Stack, op: Op)
    requires s.Cache? && AllUsageExact(env, s) && env.Ok() && Step(env, s, op).Some?
    requires SyncsOverDb(s, op) ==> AnchorUsage(env, s.top.anchors) == 0
    ensures AllUsageExact(env, Step(env, s, op).value.0)
  {
    if IsRead(op) {
      ReadUsage(env, s, op);
    } else if IsEdit(op) {
      EditUsage(env, s, op);
    } else {
      match op
      case FlushTop => FlushUsage(env, s);
      case SyncTop => SyncUsage(env, s);
      case NewCache =>
      case DropCache =>
    }
  }

  // ---------- what SanityCheck sees ----------

  ghost predicate Sane(env: Env, top: Layer) {
    (forall o :: o in top.coins ==> LegalFlags(top.coins[o])) && UsageExact(env, top)
  }

  ghost predicate SyncsSafely(env: Env, s: Stack, ops: seq<Op>)
    requires s.Cache?
    decreases |ops|
  {
    ops == [] ||
    (&& (SyncsOverDb(s, ops[0]) ==> AnchorUsage(env, s.top.anchors) == 0)
     && var r := Step(env, s, ops[0]);
        (r.Some? && r.value.0.Cache? ==> SyncsSafely(env, r.value.0, ops[1..])))
  }

  /** `SanityCheck` passes after every run that keeps the contract and does not hit that case of `Sync`. */
  lemma {:induction false} RunSane(env: Env, s: Stack, vs: seq<View>, ops: seq<Op>)
    requires s.Cache? && Consistent(env, s) && Refines(env, s, vs) && Contracts(env, vs, ops)
    requires env.Ok() && AllUsageExact(env, s) && SyncsSafely(env, s, ops)
    ensures var r := Run(env, s, ops); r.Some? && r.value.0.Cache? && Sane(env, r.value.0.top)
    decreases |ops|
  {
    hide Refines, Contract, Step, FlatStep;
    if ops != [] {
      StepRefines(env, s, vs, ops[0]);
      StepUsage(env, s, ops[0]);
      RunSane(env, Step(env, s, ops[0]).value.0, FlatStep(env, vs, ops[0]), ops[1..]);
    }
  }

  lemma RunThree(env: Env, s: Stack, a: Op, b: Op, c: Op, t: Stack, u: Stack, v: Stack)
    requires s.Cache? && t.Cache? && u.Cache? && v.Cache?
    requires Step(env, s, a).Some? && Step(env, s, a).value.0 == t
    requires Step(env, t, b).Some? && Step(env, t, b).value.0 == u
    requires Step(env, u, c).Some? && Step(env, u, c).value.0 == v
    ensures Run(env, s, [a, b, c]).Some? && Run(env, s, [a, b, c]).value.0 == v
  {
    hide Step;
    RunTwo(env, t, b, c);
    assert [a, b, c][1..] == [b, c];
  }

  /** From any database: a tree is pushed, the cache is synced, and `SanityCheck` fails. */
  lemma SyncedNotSane(env: Env, db: Db, h: Hash, tree: Tree)
    requires h != NULL && env.treeUsage(tree) > 0 && env.root(tree) != db.anchor
    ensures var r := Run(env, Cache(EMPTY_LAYER, Base(db)), [WriteBlock(h), Push(tree), SyncTop]);
            r.Some? && r.value.0.Cache? && !Sane(env, r.value.0.top)
  {
    var s := Cache(EMPTY_LAYER, Base(db));
    var s1 := SetBestBlock(s, h);
    var s2 := PushAnchor(env, s1, tree);
    PushedOnce(env, db, h, tree);
    var s3 := Sync(env, s2);
    assert !WouldThrow(s2.below, s2.top);
    assert Step(env, s2, SyncTop) == Some((s3, Nothing));
    assert Step(env, s1, Push(tree)) == Some((s2, Nothing));
    assert Step(env, s, WriteBlock(h)) == Some((s1, Nothing));
    SyncedCounts(env, s2);
    hide Step, Sync, PushAnchor, UsageExact;
    RunThree(env, s, WriteBlock(h), Push(tree), SyncTop, s1, s2, s3);
  }

  lemma PushedOnce(env: Env, db: Db, h: Hash, tree: Tree)
    requires env.root(tree) != db.anchor
    ensures var s := PushAnchor(env, SetBestBlock(Cache(EMPTY_LAYER, Base(db)), h), tree);
            && s.Cache? && s.below == Base(db) && s.top.block == h && s.top.coins == map[]
            && s.top.usage == env.treeUsage(tree)
  {
    assert GetBestAnchor(Base(db)) == (Base(db), db.anchor);
  }

  /** A synced cache without coins holds nothing, whatever its counter says. */
  lemma SyncedCounts(env: Env, s: Stack)
    requires s.Cache? && s.below.Base? && s.top.coins == map[] && s.top.usage > 0
    ensures var t := Sync(env, s); t.Cache? && !UsageExact(env, t.top)
  {
    var t := Sync(env, s);
    assert SpentPart(s.top.coins) == map[] && t.top.coins == map[] && t.top.anchors == map[];
    assert CoinCosts(env, map[]) == map[] && AnchorCosts(env, map[]) == map[];
  }

  /** From any database: the same coin is added twice, the second time without leave to overwrite. */
  lemma ThrowLeavesInexact(env: Env, db: Db, o: OutPoint, coin: Coin)
    requires !coin.IsSpent() && !coin.IsUnspendable() && env.scriptUsage(coin.out.script) > 0
    ensures var s := Cache(EMPTY_LAYER, Base(db));
            var first := AddCoin(env, s, o, coin, true);
            && first.Done? && first.stack.Cache? && UsageExact(env, first.stack.top)
            && var second := AddCoin(env, first.stack, o, coin, false);
               second.Threw? && second.partial.Cache? && !UsageExact(env, second.partial.top)
  {
    var s := Cache(EMPTY_LAYER, Base(db));
    var t := AddCoin(env, s, o, coin, true).stack;
    assert CoinCosts(env, map[]) == map[] && AnchorCosts(env, map[]) == map[];
    CoinUsagePut(env, map[], o, Some(CoinEntry(coin, true, false)));
    assert t.top.coins == map[][o := CoinEntry(coin, true, false)];
    AddCoinThrowUsage(env, t, o, coin);
  }
}
