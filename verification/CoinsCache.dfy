/**
  The caches as objects that point at the view below them (src/coins.cpp). Every method is proved
  to do to the stack under its receiver what the function of the same name in `CoinsModel` says.
 */
module CoinsCache {

  import opened Collections
  import opened CoinsModel
  import R = CoinsReads
  import W = CoinsWrites
  import T = CoinsOutputs
  import U = CoinsUsage

  /** The database at the bottom (src/txdb.cpp, src/sapling/sapling_txdb.cpp). */
  class CoinsDb {
    var coins: map<OutPoint, Coin>
    var block: Hash
    var anchor: Hash
    var anchors: map<Hash, Tree>
    var nullifiers: set<Hash>

    constructor (db: Db)
      ensures State() == db
    {
      coins, block, anchor := db.coins, db.block, db.anchor;
      anchors, nullifiers := db.anchors, db.nullifiers;
    }

    function State(): Db
      reads this
    {
      Db(coins, block, anchor, anchors, nullifiers)
    }

    /** The coin loop of `BatchWrite`: dirty entries are erased or written, in any order. */
    method WriteCoins(over: map<OutPoint, CoinEntry>, erase: bool) returns (left: map<OutPoint, CoinEntry>)
      modifies this`coins
      ensures coins == CoinsModel.WriteCoins(old(coins), over)
      ensures left == if erase then map[] else over
    {
      var todo := over.Keys;
      left := over;
      TakeNone(over);
      Unvisited(over);
      WriteNone(coins);
      hide CoinsModel.WriteCoins, Kept;
      while todo != {}
        invariant todo <= over.Keys
        invariant coins == CoinsModel.WriteCoins(old(coins), over - todo)
        invariant left == if erase then Kept(over, todo) else over
        decreases |todo|
      {
        var o :| o in todo;
        var e := over[o];
        TakeKey(over, todo, o);
        Visited(over, todo, o);
        WriteOneCoin(old(coins), over - todo, o, e);
        if e.isDirty {
          if e.coin.IsSpent() { coins := coins - {o}; } else { coins := coins[o := e.coin]; }
        }
        if erase { left := left - {o}; }
        todo := todo - {o};
      }
      TakeAll(over);
    }

    /** The anchor loop, which empties the caller's map whatever it was asked. */
    method WriteAnchors(env: Env, over: map<Hash, AnchorEntry>) returns (left: map<Hash, AnchorEntry>)
      modifies this`anchors
      ensures anchors == CoinsModel.WriteAnchors(env, old(anchors), over) && left == map[]
    {
      var todo := over.Keys;
      left := over;
      TakeNone(over);
      Unvisited(over);
      WriteNoAnchors(env, anchors);
      hide CoinsModel.WriteAnchors, Kept;
      while todo != {}
        invariant todo <= over.Keys
        invariant anchors == CoinsModel.WriteAnchors(env, old(anchors), over - todo)
        invariant left == Kept(over, todo)
        decreases |todo|
      {
        var rt :| rt in todo;
        var e := over[rt];
        TakeKey(over, todo, rt);
        Visited(over, todo, rt);
        WriteOneAnchor(env, old(anchors), over - todo, rt, e);
        if e.isDirty {
          if !e.entered {
            anchors := anchors - {rt};
          } else if rt != env.EmptyRoot() {
            anchors := anchors[rt := e.tree];
          }
        }
        left := left - {rt};
        todo := todo - {rt};
      }
      TakeAll(over);
    }

    /** The nullifier loop, which empties the caller's map as well. */
    method WriteNullifiers(over: map<Hash, NullifierEntry>) returns (left: map<Hash, NullifierEntry>)
      modifies this`nullifiers
      ensures nullifiers == CoinsModel.WriteNullifiers(old(nullifiers), over) && left == map[]
    {
      var todo := over.Keys;
      left := over;
      TakeNone(over);
      Unvisited(over);
      WriteNoNullifiers(nullifiers);
      hide CoinsModel.WriteNullifiers, Kept;
      while todo != {}
        invariant todo <= over.Keys
        invariant nullifiers == CoinsModel.WriteNullifiers(old(nullifiers), over - todo)
        invariant left == Kept(over, todo)
        decreases |todo|
      {
        var nf :| nf in todo;
        var e := over[nf];
        TakeKey(over, todo, nf);
        Visited(over, todo, nf);
        WriteOneNullifier(old(nullifiers), over - todo, nf, e);
        if e.isDirty {
          nullifiers := if e.entered then nullifiers + {nf} else nullifiers - {nf};
        }
        left := left - {nf};
        todo := todo - {nf};
      }
      TakeAll(over);
    }

    /**
      `BatchWrite`: a null block hash fails the assertion at its start. Otherwise the database answers
      afterwards as a sound cache of these maps over it answered before.
     */
    method BatchWrite(env: Env, over: Layer, erase: bool) returns (threw: bool, left: Layer)
      modifies this
      ensures threw == (over.block == NULL)
      ensures State() == if threw then old(State()) else WriteDb(env, old(State()), over)
      ensures !threw ==> left == Leftover(over, erase, true)
      ensures !threw && R.LayerOk(env, over, Base(old(State()))) ==>
                W.Carries(env, Cache(over, Base(old(State()))), Base(State()), true)
    {
      if over.block == NULL { return true, over; }
      ghost var was := State();
      var leftCoins := WriteCoins(over.coins, erase);
      var leftAnchors := WriteAnchors(env, over.anchors);
      var leftNullifiers := WriteNullifiers(over.nullifiers);
      if over.anchor != NULL { anchor := over.anchor; }
      block := over.block;
      threw := false;
      left := over.(coins := leftCoins, anchors := leftAnchors, nullifiers := leftNullifiers);
      assert Base(State()) == CoinsModel.BatchWrite(env, Base(was), over);
      if R.LayerOk(env, over, Base(was)) { W.WriteDbOk(env, Base(was), over); }
    }
  }

  datatype View = OnDb(db: CoinsDb) | OnCache(cache: CoinsViewCache)

  class CoinsViewCache {
    const env: Env
    const base: View

    /** The objects this cache rests on, and how many caches are among them. */
    ghost const below: set<object>
    ghost const depth: nat

    var cacheCoins: map<OutPoint, CoinEntry>
    var hashBlock: Hash
    var hashSaplingAnchor: Hash
    var cacheSaplingAnchors: map<Hash, AnchorEntry>
    var cacheSaplingNullifiers: map<Hash, NullifierEntry>
    var cachedCoinsUsage: int

    constructor (env: Env, base: View)
      requires base.OnCache? ==> base.cache.Linked() && base.cache.env == env
      ensures Linked() && this.env == env && this.base == base
      ensures below == if base.OnDb? then {base.db} else base.cache.below + {base.cache}
      ensures State() == Cache(EMPTY_LAYER, ViewState(base))
    {
      this.env, this.base := env, base;
      below := if base.OnDb? then {base.db} else base.cache.below + {base.cache};
      depth := if base.OnDb? then 0 else base.cache.depth + 1;
      cacheCoins, hashBlock, hashSaplingAnchor := map[], NULL, NULL;
      cacheSaplingAnchors, cacheSaplingNullifiers, cachedCoinsUsage := map[], map[], 0;
    }

    /** The chain of caches ends at a database and never runs in a circle. */
    ghost predicate Linked()
      decreases depth
    {
      && this !in below
      && match base
         case OnDb(db) => below == {db as object} && depth == 0
         case OnCache(c) =>
           depth == c.depth + 1 && c.Linked() && c.env == env && below == c.below + {c as object}
    }

    ghost function Top(): Layer
      reads this
    {
      Layer(cacheCoins, hashBlock, hashSaplingAnchor, cacheSaplingAnchors, cacheSaplingNullifiers, cachedCoinsUsage)
    }

    /** The stack of values that this object and the objects below it make up. */
    ghost function State(): Stack
      requires Linked()
      reads this, below
      decreases depth
    {
      Cache(Top(), match base case OnDb(db) => Base(db.State()) case OnCache(c) => c.State())
    }

    // ---------- reading ----------

    method BaseGetCoin(o: OutPoint) returns (c: Option<Coin>)
      requires Linked()
      modifies below
      ensures Top() == old(Top())
      ensures (State().below, c) == CoinsModel.GetCoin(env, old(State().below), o)
      decreases depth, 0
    {
      match base
      case OnDb(db) => c := if o in db.coins then Some(db.coins[o]) else None;
      case OnCache(b) => c := b.GetCoin(o);
    }

    method FetchCoin(o: OutPoint) returns (e: Option<CoinEntry>)
      requires Linked()
      modifies this, below
      ensures (State(), e) == CoinsModel.FetchCoin(env, old(State()), o)
      decreases depth, 1
    {
      if o in cacheCoins { return Some(cacheCoins[o]); }
      var tmp := BaseGetCoin(o);
      if tmp.None? { return None; }
      var entry := CoinEntry(tmp.value, false, false);
      if entry.coin.IsSpent() {
        entry := entry.(isFresh := true);
      }
      cacheCoins := cacheCoins[o := entry];
      cachedCoinsUsage := cachedCoinsUsage + env.scriptUsage(entry.coin.out.script);
      return Some(entry);
    }

    method GetCoin(o: OutPoint) returns (c: Option<Coin>)
      requires Linked()
      modifies this, below
      ensures (State(), c) == CoinsModel.GetCoin(env, old(State()), o)
      decreases depth, 2
    {
      var it := FetchCoin(o);
      if it.Some? && !it.value.coin.IsSpent() { return Some(it.value.coin); }
      return None;
    }

    method HaveCoin(o: OutPoint) returns (have: bool)
      requires Linked()
      modifies this, below
      ensures State() == CoinsModel.GetCoin(env, old(State()), o).0
      ensures R.Consistent(env, old(State())) ==> have == CoinAt(old(State()), o).Some?
    {
      ghost var s := State();
      var it := FetchCoin(o);
      have := it.Some? && !it.value.coin.IsSpent();
      if R.Consistent(env, s) { R.FetchCoinReads(env, s, o); }
    }

    /** Never asks the base, so it may miss a coin, but it never invents one. */
    method HaveCoinInCache(o: OutPoint) returns (have: bool)
      requires Linked()
      ensures have == (o in cacheCoins && !cacheCoins[o].coin.IsSpent())
      ensures have ==> CoinAt(State(), o).Some?
    {
      have := o in cacheCoins && !cacheCoins[o].coin.IsSpent();
    }

    method GetBestBlock() returns (h: Hash)
      requires Linked()
      modifies this, below
      ensures (State(), h) == CoinsModel.GetBestBlock(old(State()))
      decreases depth
    {
      if hashBlock == NULL {
        match base
        case OnDb(db) => hashBlock := db.block;
        case OnCache(b) =>
          var up := b.GetBestBlock();
          hashBlock := up;
      }
      h := hashBlock;
    }

    method GetBestAnchor() returns (h: Hash)
      requires Linked()
      modifies this, below
      ensures (State(), h) == CoinsModel.GetBestAnchor(old(State()))
      decreases depth
    {
      if hashSaplingAnchor == NULL {
        match base
        case OnDb(db) => hashSaplingAnchor := db.anchor;
        case OnCache(b) =>
          var up := b.GetBestAnchor();
          hashSaplingAnchor := up;
      }
      h := hashSaplingAnchor;
    }

    method BaseGetAnchor(rt: Hash) returns (tree: Option<Tree>)
      requires Linked()
      modifies below
      ensures Top() == old(Top())
      ensures (State().below, tree) == CoinsModel.GetAnchor(env, old(State().below), rt)
      decreases depth, 0
    {
      match base
      case OnDb(db) =>
        tree := if rt == env.EmptyRoot() then Some([]) else if rt in db.anchors then Some(db.anchors[rt]) else None;
      case OnCache(b) => tree := b.GetSaplingAnchorAt(rt);
    }

    method GetSaplingAnchorAt(rt: Hash) returns (tree: Option<Tree>)
      requires Linked()
      modifies this, below
      ensures (State(), tree) == CoinsModel.GetAnchor(env, old(State()), rt)
      decreases depth, 1
    {
      if rt in cacheSaplingAnchors {
        var e := cacheSaplingAnchors[rt];
        return if e.entered then Some(e.tree) else None;
      }
      tree := BaseGetAnchor(rt);
      if tree.None? { return; }
      cacheSaplingAnchors := cacheSaplingAnchors[rt := AnchorEntry(true, tree.value, false)];
      cachedCoinsUsage := cachedCoinsUsage + env.treeUsage(tree.value);
    }

    method BaseGetNullifier(nf: Hash) returns (spent: bool)
      requires Linked()
      modifies below
      ensures Top() == old(Top())
      ensures (State().below, spent) == CoinsModel.GetNullifier(old(State().below), nf)
      decreases depth, 0
    {
      match base
      case OnDb(db) => spent := nf in db.nullifiers;
      case OnCache(b) => spent := b.GetNullifier(nf);
    }

    method GetNullifier(nf: Hash) returns (spent: bool)
      requires Linked()
      modifies this, below
      ensures (State(), spent) == CoinsModel.GetNullifier(old(State()), nf)
      decreases depth, 1
    {
      if nf in cacheSaplingNullifiers { return cacheSaplingNullifiers[nf].entered; }
      spent := BaseGetNullifier(nf);
      cacheSaplingNullifiers := cacheSaplingNullifiers[nf := NullifierEntry(spent, false)];
    }

    method HaveInputs(tx: Tx) returns (ok: bool)
      requires Linked()
      modifies this, below
      ensures !tx.coinbase ==> (State(), ok) == CoinsModel.HaveInputs(env, old(State()), tx.inputs)
      ensures tx.coinbase ==> ok && State() == old(State())
    {
      if tx.coinbase { return true; }
      ghost var s := State();
      assert tx.inputs[0..] == tx.inputs;
      for i := 0 to |tx.inputs|
        invariant CoinsModel.HaveInputs(env, s, tx.inputs) == CoinsModel.HaveInputs(env, State(), tx.inputs[i..])
      {
        assert tx.inputs[i..][1..] == tx.inputs[i + 1..];
        var it := FetchCoin(tx.inputs[i]);
        if it.None? || it.value.coin.IsSpent() { return false; }
      }
      return true;
    }

    method HaveShieldedRequirements(tx: Tx) returns (ok: bool)
      requires Linked()
      modifies this, below
      ensures (State(), ok) == CoinsModel.HaveShieldedRequirements(env, old(State()), tx)
    {
      if !tx.HasShieldedPayload() { return true; }
      ghost var s := State();
      assert tx.spends[0..] == tx.spends;
      for i := 0 to |tx.spends|
        invariant HaveShielded(env, s, tx.spends) == HaveShielded(env, State(), tx.spends[i..])
      {
        assert tx.spends[i..][1..] == tx.spends[i + 1..];
        var spent := GetNullifier(tx.spends[i].nullifier);
        if spent { return false; }
        var tree := GetSaplingAnchorAt(tx.spends[i].anchor);
        if tree.None? { return false; }
      }
      return true;
    }

    // ---------- editing ----------

    method AddCoin(o: OutPoint, coin: Coin, possibleOverwrite: bool) returns (threw: bool)
      requires Linked() && !coin.IsSpent()
      modifies this
      ensures CoinsModel.AddCoin(env, old(State()), o, coin, possibleOverwrite) == if threw then Threw(State())
              else Done(State())
    {
      if coin.IsUnspendable() { return false; }
      var inserted := o !in cacheCoins;
      var entry := if inserted then CoinEntry(CLEARED, false, false) else cacheCoins[o];
      var isFresh := false;
      if !inserted {
        cachedCoinsUsage := cachedCoinsUsage - env.scriptUsage(entry.coin.out.script);
      }
      if !possibleOverwrite {
        if !entry.coin.IsSpent() { return true; }
        isFresh := !entry.isDirty;
      }
      cacheCoins := cacheCoins[o := CoinEntry(coin, true, entry.isFresh || isFresh)];
      cachedCoinsUsage := cachedCoinsUsage + env.scriptUsage(coin.out.script);
      return false;
    }

    method AddCoins(tx: Tx, height: nat, check: bool) returns (threw: bool)
      requires Linked()
      requires forall i :: 0 <= i < |tx.outputs| ==> tx.outputs[i].value != -1
      modifies this, below
      ensures T.AddCoins(env, old(State()), tx, height, check, 0) == if threw then Threw(State()) else Done(State())
    {
      ghost var s := State();
      for i := 0 to |tx.outputs|
        invariant T.AddCoins(env, s, tx, height, check, 0) == T.AddCoins(env, State(), tx, height, check, i)
      {
        var o := OutPoint(tx.id, i);
        var overwrite := tx.coinbase;
        if check {
          var it := FetchCoin(o);
          overwrite := it.Some? && !it.value.coin.IsSpent();
        }
        var failed := AddCoin(o, Coin(tx.outputs[i], height, tx.coinbase), overwrite);
        if failed { return true; }
      }
      return false;
    }

    method SpendCoin(o: OutPoint) returns (found: bool, moved: Coin)
      requires Linked()
      modifies this, below
      ensures (State(), found, moved) == CoinsModel.SpendCoin(env, old(State()), o)
    {
      var it := FetchCoin(o);
      if it.None? { return false, CLEARED; }
      cachedCoinsUsage := cachedCoinsUsage - env.scriptUsage(it.value.coin.out.script);
      if it.value.isFresh {
        cacheCoins := cacheCoins - {o};
      } else {
        cacheCoins := cacheCoins[o := CoinEntry(CLEARED, true, false)];
      }
      return true, it.value.coin;
    }

    method Uncache(o: OutPoint)
      requires Linked()
      modifies this
      ensures State() == CoinsModel.Uncache(env, old(State()), o)
    {
      if o in cacheCoins && !cacheCoins[o].isDirty && !cacheCoins[o].isFresh {
        cachedCoinsUsage := cachedCoinsUsage - env.scriptUsage(cacheCoins[o].coin.out.script);
        cacheCoins := cacheCoins - {o};
      }
    }

    method SetBestBlock(h: Hash)
      requires Linked()
      modifies this
      ensures State() == CoinsModel.SetBestBlock(old(State()), h)
    {
      hashBlock := h;
    }

    method PushAnchor(tree: Tree)
      requires Linked()
      modifies this, below
      ensures State() == CoinsModel.PushAnchor(env, old(State()), tree)
    {
      var newRoot := env.root(tree);
      var currentRoot := GetBestAnchor();
      if currentRoot == newRoot { return; }
      if newRoot in cacheSaplingAnchors {
        cachedCoinsUsage := cachedCoinsUsage - env.treeUsage(cacheSaplingAnchors[newRoot].tree);
      }
      cacheSaplingAnchors := cacheSaplingAnchors[newRoot := AnchorEntry(true, tree, true)];
      cachedCoinsUsage := cachedCoinsUsage + env.treeUsage(tree);
      hashSaplingAnchor := newRoot;
    }

    method PopAnchor(rt: Hash) returns (failed: bool)
      requires Linked()
      modifies this, below
      ensures CoinsModel.PopAnchor(env, old(State()), rt) == if failed then Threw(State()) else Done(State())
    {
      var currentRoot := GetBestAnchor();
      if currentRoot == rt { return false; }
      var tree := GetSaplingAnchorAt(currentRoot);
      if tree.None? { return true; }
      var entry := cacheSaplingAnchors[currentRoot];
      cacheSaplingAnchors := cacheSaplingAnchors[currentRoot := entry.(entered := false, isDirty := true)];
      hashSaplingAnchor := rt;
      return false;
    }

    method SetNullifiers(tx: Tx, spent: bool)
      requires Linked()
      modifies this
      ensures State() == CoinsModel.SetNullifiers(old(State()), tx, spent)
    {
      if !tx.shieldedVersion { return; }
      assert tx.spends[0..] == tx.spends;
      for i := 0 to |tx.spends|
        invariant Top() == old(Top()).(nullifiers := cacheSaplingNullifiers)
        invariant MarkNullifiers(old(cacheSaplingNullifiers), tx.spends, spent)
               == MarkNullifiers(cacheSaplingNullifiers, tx.spends[i..], spent)
      {
        assert tx.spends[i..][1..] == tx.spends[i + 1..];
        cacheSaplingNullifiers := cacheSaplingNullifiers[tx.spends[i].nullifier := NullifierEntry(spent, true)];
      }
    }

    // ---------- writing into the view below ----------

    /** The coin loop of `BatchWrite`, in any order of the keys. */
    method WriteCoinsFrom(over: map<OutPoint, CoinEntry>) returns (threw: bool)
      modifies this`cacheCoins, this`cachedCoinsUsage
      ensures threw == AnyMisapplied(old(cacheCoins), over)
      ensures !threw ==> cacheCoins == MergeCoins(old(cacheCoins), over)
      ensures exists todo :: todo <= over.Keys && cacheCoins == MergeCoins(old(cacheCoins), over - todo)
      ensures cachedCoinsUsage - CoinUsage(env, cacheCoins) == old(cachedCoinsUsage) - CoinUsage(env, old(cacheCoins))
    {
      ghost var under := cacheCoins;
      var todo := over.Keys;
      TakeNone(over);
      MergeNoCoins(under);
      while todo != {}
        invariant todo <= over.Keys
        invariant cacheCoins == MergeCoins(under, over - todo) && !AnyMisapplied(under, over - todo)
        invariant cachedCoinsUsage - CoinUsage(env, cacheCoins) == old(cachedCoinsUsage) - CoinUsage(env, under)
        decreases |todo|
      {
        var o :| o in todo;
        var e := over[o];
        TakeKey(over, todo, o);
        MergeOneCoin(under, over - todo, o, e);
        if e.isDirty {
          if Misapplied(Lookup(cacheCoins, o), e) {
            assert over[o] == e;
            return true;
          }
          WriteCoin(o, e);
        }
        todo := todo - {o};
      }
      TakeAll(over);
      return false;
    }

    /** One dirty entry that is not misapplied: created, overwritten or erased here. */
    method WriteCoin(o: OutPoint, e: CoinEntry)
      requires e.isDirty
      modifies this`cacheCoins, this`cachedCoinsUsage
      ensures cacheCoins == W.Put(old(cacheCoins), o, MergeCoin(Lookup(old(cacheCoins), o), e))
      ensures cachedCoinsUsage - CoinUsage(env, cacheCoins) == old(cachedCoinsUsage) - CoinUsage(env, old(cacheCoins))
    {
      U.CoinUsagePut(env, cacheCoins, o, MergeCoin(Lookup(cacheCoins, o), e));
      if o !in cacheCoins {
        if !(e.isFresh && e.coin.IsSpent()) {
          cacheCoins := cacheCoins[o := CoinEntry(e.coin, true, e.isFresh)];
          cachedCoinsUsage := cachedCoinsUsage + env.scriptUsage(e.coin.out.script);
        } else {
          assert cacheCoins - {o} == cacheCoins;
        }
      } else {
        var us := cacheCoins[o];
        cachedCoinsUsage := cachedCoinsUsage - env.scriptUsage(us.coin.out.script);
        if us.isFresh && e.coin.IsSpent() {
          cacheCoins := cacheCoins - {o};
        } else {
          cacheCoins := cacheCoins[o := us.(coin := e.coin, isDirty := true)];
          cachedCoinsUsage := cachedCoinsUsage + env.scriptUsage(e.coin.out.script);
        }
      }
    }

    /** `BatchWriteAnchors`: the parent's map and counter, and what is left in the child's map. */
    method BatchWriteAnchors(over: map<Hash, AnchorEntry>, erase: bool) returns (left: map<Hash, AnchorEntry>)
      modifies this`cacheSaplingAnchors, this`cachedCoinsUsage
      ensures cacheSaplingAnchors == MergeAnchors(old(cacheSaplingAnchors), over)
      ensures cachedCoinsUsage - AnchorUsage(env, cacheSaplingAnchors)
           == old(cachedCoinsUsage) - AnchorUsage(env, old(cacheSaplingAnchors))
      ensures left == if erase then map[] else CleanAnchors(over)
    {
      ghost var under := cacheSaplingAnchors;
      var todo := over.Keys;
      TakeNone(over);
      left := map[];
      assert under == MergeAnchors(under, over - todo);
      while todo != {}
        invariant todo <= over.Keys
        invariant cacheSaplingAnchors == MergeAnchors(under, over - todo)
        invariant cachedCoinsUsage - AnchorUsage(env, cacheSaplingAnchors) == old(cachedCoinsUsage) - AnchorUsage(env, under)
        invariant left == if erase then map[] else CleanAnchors(over - todo)
        decreases |todo|
      {
        var rt :| rt in todo;
        var e := over[rt];
        TakeKey(over, todo, rt);
        MergeOneAnchor(under, over - todo, rt, e);
        if e.isDirty { WriteAnchor(rt, e); }
        if !erase {
          CleanOneAnchor(over - todo, rt, e);
          left := left[rt := e.(isDirty := false)];
        }
        todo := todo - {rt};
      }
      TakeAll(over);
    }

    method WriteAnchor(rt: Hash, e: AnchorEntry)
      modifies this`cacheSaplingAnchors, this`cachedCoinsUsage
      ensures cacheSaplingAnchors == old(cacheSaplingAnchors)[rt := MergeAnchor(Lookup(old(cacheSaplingAnchors), rt), e)]
      ensures cachedCoinsUsage - AnchorUsage(env, cacheSaplingAnchors)
           == old(cachedCoinsUsage) - AnchorUsage(env, old(cacheSaplingAnchors))
    {
      U.AnchorUsagePut(env, cacheSaplingAnchors, rt, MergeAnchor(Lookup(cacheSaplingAnchors, rt), e));
      if rt !in cacheSaplingAnchors {
        cacheSaplingAnchors := cacheSaplingAnchors[rt := AnchorEntry(e.entered, e.tree, true)];
        cachedCoinsUsage := cachedCoinsUsage + env.treeUsage(e.tree);
      } else {
        var entry := cacheSaplingAnchors[rt];
        var updateTree := e.entered && entry.tree != e.tree;
        if entry.entered != e.entered || updateTree {
          if updateTree {
            cachedCoinsUsage := cachedCoinsUsage - env.treeUsage(entry.tree);
            entry := entry.(tree := e.tree);
            cachedCoinsUsage := cachedCoinsUsage + env.treeUsage(entry.tree);
          }
          cacheSaplingAnchors := cacheSaplingAnchors[rt := entry.(entered := e.entered, isDirty := true)];
        } else {
          assert cacheSaplingAnchors[rt := entry] == cacheSaplingAnchors;
        }
      }
    }

    method BatchWriteNullifiers(over: map<Hash, NullifierEntry>, erase: bool) returns (left: map<Hash, NullifierEntry>)
      modifies this`cacheSaplingNullifiers
      ensures cacheSaplingNullifiers == MergeNullifiers(old(cacheSaplingNullifiers), over)
      ensures left == if erase then map[] else CleanNullifiers(over)
    {
      ghost var under := cacheSaplingNullifiers;
      var todo := over.Keys;
      TakeNone(over);
      left := map[];
      assert under == MergeNullifiers(under, over - todo);
      while todo != {}
        invariant todo <= over.Keys
        invariant cacheSaplingNullifiers == MergeNullifiers(under, over - todo)
        invariant left == if erase then map[] else CleanNullifiers(over - todo)
        decreases |todo|
      {
        var nf :| nf in todo;
        var e := over[nf];
        TakeKey(over, todo, nf);
        MergeOneNullifier(under, over - todo, nf, e);
        if e.isDirty {
          if nf !in cacheSaplingNullifiers {
            cacheSaplingNullifiers := cacheSaplingNullifiers[nf := NullifierEntry(e.entered, true)];
          } else if cacheSaplingNullifiers[nf].entered != e.entered {
            cacheSaplingNullifiers := cacheSaplingNullifiers[nf := NullifierEntry(e.entered, true)];
          } else {
            assert cacheSaplingNullifiers[nf := cacheSaplingNullifiers[nf]] == cacheSaplingNullifiers;
          }
        }
        if !erase {
          CleanOneNullifier(over - todo, nf, e);
          left := left[nf := e.(isDirty := false)];
        }
        todo := todo - {nf};
      }
      TakeAll(over);
    }

    /** `BatchWrite` into this cache; `left` is what the caller's maps hold afterwards. */
    method BatchWrite(over: Layer, erase: bool) returns (threw: bool, left: Layer)
      modifies this
      ensures threw == AnyMisapplied(old(cacheCoins), over.coins)
      ensures threw ==> Top() == old(Top()).(coins := cacheCoins, usage := cachedCoinsUsage)
      ensures threw ==> exists todo :: todo <= over.coins.Keys && cacheCoins == MergeCoins(old(cacheCoins), over.coins - todo)
      ensures threw ==>
                cachedCoinsUsage - CoinUsage(env, cacheCoins) == old(cachedCoinsUsage) - CoinUsage(env, old(cacheCoins))
      ensures !threw ==> Top() == WriteLayer(env, old(Top()), over)
      ensures !threw ==> left == Leftover(over, erase, false)
    {
      left := over;
      threw := WriteCoinsFrom(over.coins);
      if threw { return; }
      if erase { left := left.(coins := map[]); }
      var anchors := BatchWriteAnchors(over.anchors, erase);
      var nullifiers := BatchWriteNullifiers(over.nullifiers, erase);
      left := left.(anchors := anchors, nullifiers := nullifiers);
      hashSaplingAnchor := over.anchor;
      hashBlock := over.block;
    }

    method WriteBase(erase: bool) returns (threw: bool, left: Layer)
      requires Linked()
      modifies below
      ensures Top() == old(Top())
      ensures threw == WouldThrow(old(State().below), Top())
      ensures !threw ==> State().below == CoinsModel.BatchWrite(env, old(State().below), Top())
      ensures !threw ==> left == Leftover(Top(), erase, base.OnDb?)
    {
      var mine := Layer(cacheCoins, hashBlock, hashSaplingAnchor, cacheSaplingAnchors, cacheSaplingNullifiers,
          cachedCoinsUsage);
      match base
      case OnDb(db) => threw, left := db.BatchWrite(env, mine, erase);
      case OnCache(b) => threw, left := b.BatchWrite(mine, erase);
    }

    method Flush() returns (threw: bool)
      requires Linked()
      modifies this, below
      ensures threw == WouldThrow(old(State().below), old(Top()))
      ensures !threw ==> State() == CoinsModel.Flush(env, old(State()))
    {
      var left;
      threw, left := WriteBase(true);
      if threw { return; }
      TakeLeft(left);
      if cacheCoins != map[] || cacheSaplingAnchors != map[] || cacheSaplingNullifiers != map[] {
        return true;
      }
      cachedCoinsUsage := 0;
      assert Top() == FlushedLayer(old(Top()));
    }

    /** The caller's maps were passed by reference, so they now hold what the base left in them. */
    method TakeLeft(left: Layer)
      modifies this
      ensures Top() == old(Top()).(coins := left.coins, anchors := left.anchors, nullifiers := left.nullifiers)
    {
      cacheCoins, cacheSaplingAnchors, cacheSaplingNullifiers := left.coins, left.anchors, left.nullifiers;
    }

    method Sync() returns (threw: bool)
      requires Linked()
      modifies this, below
      ensures threw == WouldThrow(old(State().below), old(Top()))
      ensures !threw ==> State() == CoinsModel.Sync(env, old(State()))
    {
      var left;
      threw, left := WriteBase(false);
      if threw { return; }
      SyncTop(left);
    }

    /** The part of `Sync` after the write: only this cache changes. */
    method SyncTop(left: Layer)
      requires left == Leftover(Top(), false, base.OnDb?)
      modifies this
      ensures Top() == SyncedLayer(env, old(Top()), base.OnDb?)
    {
      TakeLeft(left);
      CleanCoins();
    }

    /** The loop of `Sync` over the cached coins. */
    method CleanCoins()
      modifies this`cacheCoins, this`cachedCoinsUsage
      ensures cacheCoins == CleanPart(old(cacheCoins))
      ensures cachedCoinsUsage == old(cachedCoinsUsage) - CoinUsage(env, SpentPart(old(cacheCoins)))
    {
      ghost var all := cacheCoins;
      var todo := cacheCoins.Keys;
      while todo != {}
        invariant todo <= all.Keys
        invariant forall o :: Lookup(cacheCoins, o) == Lookup(if o in todo then all else CleanPart(all), o)
        invariant cachedCoinsUsage - CoinUsage(env, cacheCoins) == old(cachedCoinsUsage) - CoinUsage(env, all)
        decreases |todo|
      {
        var o :| o in todo;
        todo := todo - {o};
        assert Lookup(cacheCoins, o) == Lookup(all, o);
        var e := cacheCoins[o];
        if e.coin.IsSpent() {
          U.CoinUsagePut(env, cacheCoins, o, None);
          cachedCoinsUsage := cachedCoinsUsage - env.scriptUsage(e.coin.out.script);
          cacheCoins := cacheCoins - {o};
        } else {
          U.CoinUsagePut(env, cacheCoins, o, Some(CoinEntry(e.coin, false, false)));
          cacheCoins := cacheCoins[o := CoinEntry(e.coin, false, false)];
        }
      }
      SameLookups(cacheCoins, CleanPart(all));
      U.CoinUsageParts(env, all);
    }

    /** `SanityCheck`: passes exactly when the flags are legal and the counter is the recomputed sum. */
    method SanityCheck() returns (pass: bool)
      ensures pass == U.Sane(env, Top())
    {
      var legal, coinSum := RecomputeCoins();
      if !legal { return false; }
      var recomputed := coinSum;
      var todo := cacheSaplingAnchors.Keys;
      TakeNone(cacheSaplingAnchors);
      while todo != {}
        invariant todo <= cacheSaplingAnchors.Keys
        invariant recomputed == coinSum + AnchorUsage(env, cacheSaplingAnchors - todo)
        decreases |todo|
      {
        var rt :| rt in todo;
        var e := cacheSaplingAnchors[rt];
        U.AnchorUsagePut(env, cacheSaplingAnchors - todo, rt, e);
        recomputed := recomputed + env.treeUsage(e.tree);
        TakeKey(cacheSaplingAnchors, todo, rt);
        todo := todo - {rt};
      }
      TakeAll(cacheSaplingAnchors);
      return recomputed == cachedCoinsUsage;
    }

    method RecomputeCoins() returns (legal: bool, sum: nat)
      ensures legal == forall o :: o in cacheCoins ==> R.LegalFlags(cacheCoins[o])
      ensures legal ==> sum == CoinUsage(env, cacheCoins)
    {
      sum := 0;
      var todo := cacheCoins.Keys;
      TakeNone(cacheCoins);
      while todo != {}
        invariant todo <= cacheCoins.Keys
        invariant forall o :: o in cacheCoins && o !in todo ==> R.LegalFlags(cacheCoins[o])
        invariant sum == CoinUsage(env, cacheCoins - todo)
        decreases |todo|
      {
        var o :| o in todo;
        var e := cacheCoins[o];
        if !R.LegalFlags(e) {
          assert cacheCoins[o] == e;
          return false, sum;
        }
        U.CoinUsagePut(env, cacheCoins - todo, o, Some(e));
        sum := sum + env.scriptUsage(e.coin.out.script);
        TakeKey(cacheCoins, todo, o);
        todo := todo - {o};
      }
      TakeAll(cacheCoins);
      return true, sum;
    }
  }

  /** The part of a map that a loop has not visited. */
  function Kept<K, V>(m: map<K, V>, todo: set<K>): map<K, V> { map k | k in m && k in todo :: m[k] }

  lemma Unvisited<K, V>(m: map<K, V>)
    ensures Kept(m, m.Keys) == m && Kept(m, {}) == map[]
  {
  }

  lemma Visited<K, V>(m: map<K, V>, todo: set<K>, k: K)
    ensures Kept(m, todo) - {k} == Kept(m, todo - {k})
  {
  }

  lemma WriteNone(db: map<OutPoint, Coin>)
    ensures WriteCoins(db, map[]) == db
  {
  }

  lemma WriteNoAnchors(env: Env, db: map<Hash, Tree>)
    ensures WriteAnchors(env, db, map[]) == db
  {
  }

  lemma WriteNoNullifiers(db: set<Hash>)
    ensures WriteNullifiers(db, map[]) == db
  {
  }

  lemma WriteOneCoin(db: map<OutPoint, Coin>, done: map<OutPoint, CoinEntry>, o: OutPoint, e: CoinEntry)
    requires o !in done
    ensures var was := WriteCoins(db, done);
            WriteCoins(db, done[o := e]) ==
            if !e.isDirty then was else if e.coin.IsSpent() then was - {o} else was[o := e.coin]
  {
    var was, now := WriteCoins(db, done), WriteCoins(db, done[o := e]);
    SameLookups(now, if !e.isDirty then was else if e.coin.IsSpent() then was - {o} else was[o := e.coin]);
  }

  lemma WriteOneAnchor(env: Env, db: map<Hash, Tree>, done: map<Hash, AnchorEntry>, rt: Hash, e: AnchorEntry)
    requires rt !in done
    ensures var was := WriteAnchors(env, db, done);
            WriteAnchors(env, db, done[rt := e]) ==
            if !e.isDirty then was
            else if !e.entered then was - {rt} else if rt != env.EmptyRoot() then was[rt := e.tree] else was
  {
    var was, now := WriteAnchors(env, db, done), WriteAnchors(env, db, done[rt := e]);
    SameLookups(now, if !e.isDirty then was
                     else if !e.entered then was - {rt} else if rt != env.EmptyRoot() then was[rt := e.tree] else was);
  }

  lemma WriteOneNullifier(db: set<Hash>, done: map<Hash, NullifierEntry>, nf: Hash, e: NullifierEntry)
    requires nf !in done
    ensures var was := WriteNullifiers(db, done);
            WriteNullifiers(db, done[nf := e]) == if !e.isDirty then was else if e.entered then was + {nf} else was - {nf}
  {
  }

  lemma MergeNoCoins(under: map<OutPoint, CoinEntry>)
    ensures MergeCoins(under, map[]) == under
  {
  }

  /** One more entry changes the merged map at its own key, where nothing was written before. */
  lemma MergeOneCoin(under: map<OutPoint, CoinEntry>, done: map<OutPoint, CoinEntry>, o: OutPoint, e: CoinEntry)
    requires o !in done
    ensures Lookup(MergeCoins(under, done), o) == Lookup(under, o)
    ensures MergeCoins(under, done[o := e]) ==
            if e.isDirty then W.Put(MergeCoins(under, done), o, MergeCoin(Lookup(under, o), e)) else MergeCoins(under, done)
    ensures AnyMisapplied(under, done[o := e]) == (AnyMisapplied(under, done) || Misapplied(Lookup(under, o), e))
  {
    var next := done[o := e];
    forall p ensures Lookup(MergeCoins(under, next), p) ==
                     if p == o && e.isDirty then MergeCoin(Lookup(under, o), e) else Lookup(MergeCoins(under, done), p)
    {
      assert Lookup(MergeCoins(under, next), p) == MergedCoin(under, next, p);
      assert Lookup(MergeCoins(under, done), p) == MergedCoin(under, done, p);
    }
    SameLookups(MergeCoins(under, next),
                if e.isDirty then W.Put(MergeCoins(under, done), o, MergeCoin(Lookup(under, o), e))
                    else MergeCoins(under, done));
    if AnyMisapplied(under, done) {
      var p :| p in done && Misapplied(Lookup(under, p), done[p]);
      assert next[p] == done[p];
    }
    assert next[o] == e;
  }

  lemma MergeOneAnchor(under: map<Hash, AnchorEntry>, done: map<Hash, AnchorEntry>, rt: Hash, e: AnchorEntry)
    requires rt !in done
    ensures Lookup(MergeAnchors(under, done), rt) == Lookup(under, rt)
    ensures MergeAnchors(under, done[rt := e]) ==
            if e.isDirty then MergeAnchors(under, done)[rt := MergeAnchor(Lookup(under, rt), e)] else MergeAnchors(under, done)
  {
    var a, b := MergeAnchors(under, done), MergeAnchors(under, done[rt := e]);
    SameLookups(b, if e.isDirty then a[rt := MergeAnchor(Lookup(under, rt), e)] else a);
  }

  lemma CleanOneAnchor(done: map<Hash, AnchorEntry>, rt: Hash, e: AnchorEntry)
    ensures CleanAnchors(done[rt := e]) == CleanAnchors(done)[rt := e.(isDirty := false)]
  {
  }

  lemma MergeOneNullifier(under: map<Hash, NullifierEntry>, done: map<Hash, NullifierEntry>, nf: Hash, e: NullifierEntry)
    requires nf !in done
    ensures Lookup(MergeNullifiers(under, done), nf) == Lookup(under, nf)
    ensures MergeNullifiers(under, done[nf := e]) ==
            if e.isDirty then MergeNullifiers(under, done)[nf := MergeNullifier(Lookup(under, nf), e)]
                else MergeNullifiers(under, done)
  {
    var a, b := MergeNullifiers(under, done), MergeNullifiers(under, done[nf := e]);
    SameLookups(b, if e.isDirty then a[nf := MergeNullifier(Lookup(under, nf), e)] else a);
  }

  lemma CleanOneNullifier(done: map<Hash, NullifierEntry>, nf: Hash, e: NullifierEntry)
    ensures CleanNullifiers(done[nf := e]) == CleanNullifiers(done)[nf := e.(isDirty := false)]
  {
  }

  ghost function ViewState(base: View): Stack
    requires base.OnCache? ==> base.cache.Linked()
    reads if base.OnDb? then {base.db} else base.cache.below + {base.cache}
  {
    match base
    case OnDb(db) => Base(db.State())
    case OnCache(c) => c.State()
  }
}
