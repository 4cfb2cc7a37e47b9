/** What every cache of a stack keeps true, and why reading never changes an answer. */
module CoinsReads {

  import opened Collections
  import opened CoinsModel

  // ---------- the invariant of a stack ----------

  /** The five flag states that `SanityCheck` accepts (src/coins.cpp:517-522). */
  predicate LegalFlags(e: CoinEntry) {
    var spent := e.coin.IsSpent();
    && !(!e.isDirty && e.isFresh && !spent)
    && !(!e.isDirty && !e.isFresh && spent)
    && !(e.isDirty && e.isFresh && spent)
  }

  /**
    FRESH means the view below has no unspent coin there, and an entry that is not DIRTY agrees
    with the view below.
   */
  predicate EntryOk(e: CoinEntry, under: Option<Coin>) {
    && LegalFlags(e)
    && (e.isFresh ==> under.None?)
    && (!e.isDirty ==> Unspent(e.coin) == under)
  }

  predicate AnchorOk(e: AnchorEntry, under: Option<Tree>) {
    !e.isDirty ==> Shown(e) == under
  }

  ghost predicate LayerOk(env: Env, top: Layer, below: Stack) {
    && (forall o :: o in top.coins ==> EntryOk(top.coins[o], CoinAt(below, o)))
    && (forall rt :: rt in top.anchors ==> AnchorOk(top.anchors[rt], AnchorAt(env, below, rt)))
    && (forall nf :: nf in top.nullifiers ==>
          (!top.nullifiers[nf].isDirty ==> top.nullifiers[nf].entered == NullifierAt(below, nf)))
  }

  ghost predicate Consistent(env: Env, s: Stack) {
    s.Cache? ==> LayerOk(env, s.top, s.below) && Consistent(env, s.below)
  }

  /** `SanityCheck` recomputes the counter of the top cache (src/coins.cpp:525-530). */
  ghost predicate UsageExact(env: Env, top: Layer) {
    top.usage == CoinUsage(env, top.coins) + AnchorUsage(env, top.anchors)
  }

  ghost predicate AllUsageExact(env: Env, s: Stack) {
    s.Cache? ==> UsageExact(env, s.top) && AllUsageExact(env, s.below)
  }

  // ---------- two stacks that answer alike at every depth ----------

  /** The same coins, anchors and nullifiers. */
  ghost predicate SameData(env: Env, s: Stack, t: Stack) {
    && (forall o :: CoinAt(s, o) == CoinAt(t, o))
    && (forall rt :: AnchorAt(env, s, rt) == AnchorAt(env, t, rt))
    && (forall nf :: NullifierAt(s, nf) == NullifierAt(t, nf))
  }

  ghost predicate SameAnswers(env: Env, s: Stack, t: Stack) {
    && SameData(env, s, t)
    && BestBlock(s) == BestBlock(t)
    && BestAnchor(s) == BestAnchor(t)
  }

  ghost predicate Same(env: Env, s: Stack, t: Stack) {
    && SameAnswers(env, s, t)
    && s.Cache? == t.Cache?
    && (s.Cache? ==> Same(env, s.below, t.below))
  }

  lemma {:induction false} SameRefl(env: Env, s: Stack)
    ensures Same(env, s, s)
  {
    if s.Cache? { SameRefl(env, s.below); }
  }

  lemma {:induction false} SameTrans(env: Env, s: Stack, t: Stack, u: Stack)
    requires Same(env, s, t) && Same(env, t, u)
    ensures Same(env, s, u)
  {
    if s.Cache? { SameTrans(env, s.below, t.below, u.below); }
  }

  /** A layer does not notice when the views below it are replaced by ones that answer alike. */
  lemma LayerOkTransfer(env: Env, top: Layer, below: Stack, below': Stack)
    requires LayerOk(env, top, below) && SameAnswers(env, below, below')
    ensures LayerOk(env, top, below')
    ensures SameAnswers(env, Cache(top, below), Cache(top, below'))
  {
    var s, t := Cache(top, below), Cache(top, below');
    assert forall o :: CoinAt(s, o) == CoinAt(t, o);
    assert forall rt :: AnchorAt(env, s, rt) == AnchorAt(env, t, rt);
    assert forall nf :: NullifierAt(s, nf) == NullifierAt(t, nf);
    assert BestBlock(s) == BestBlock(t) && BestAnchor(s) == BestAnchor(t);
  }

  /** Recording an answer of the view below as a clean entry changes nothing. */
  lemma FillCoin(env: Env, top: Layer, below: Stack, o: OutPoint, e: CoinEntry, usage: int)
    requires LayerOk(env, top, below)
    requires o !in top.coins && !e.isDirty && EntryOk(e, CoinAt(below, o))
    ensures var filled := top.(coins := top.coins[o := e], usage := usage);
            LayerOk(env, filled, below) && SameAnswers(env, Cache(top, below), Cache(filled, below))
  {
    var filled := top.(coins := top.coins[o := e], usage := usage);
    var s, t := Cache(top, below), Cache(filled, below);
    assert forall p :: CoinAt(s, p) == CoinAt(t, p);
    assert forall rt :: AnchorAt(env, s, rt) == AnchorAt(env, t, rt);
    assert forall nf :: NullifierAt(s, nf) == NullifierAt(t, nf);
  }

  lemma FillAnchor(env: Env, top: Layer, below: Stack, rt: Hash, e: AnchorEntry, usage: int)
    requires LayerOk(env, top, below)
    requires rt !in top.anchors && !e.isDirty && AnchorOk(e, AnchorAt(env, below, rt))
    ensures var filled := top.(anchors := top.anchors[rt := e], usage := usage);
            LayerOk(env, filled, below) && SameAnswers(env, Cache(top, below), Cache(filled, below))
  {
    var filled := top.(anchors := top.anchors[rt := e], usage := usage);
    var s, t := Cache(top, below), Cache(filled, below);
    assert forall o :: CoinAt(s, o) == CoinAt(t, o);
    assert forall r :: AnchorAt(env, s, r) == AnchorAt(env, t, r);
    assert forall nf :: NullifierAt(s, nf) == NullifierAt(t, nf);
  }

  lemma FillNullifier(env: Env, top: Layer, below: Stack, nf: Hash, e: NullifierEntry)
    requires LayerOk(env, top, below)
    requires nf !in top.nullifiers && !e.isDirty && e.entered == NullifierAt(below, nf)
    ensures var filled := top.(nullifiers := top.nullifiers[nf := e]);
            LayerOk(env, filled, below) && SameAnswers(env, Cache(top, below), Cache(filled, below))
  {
    var filled := top.(nullifiers := top.nullifiers[nf := e]);
    var s, t := Cache(top, below), Cache(filled, below);
    assert forall o :: CoinAt(s, o) == CoinAt(t, o);
    assert forall rt :: AnchorAt(env, s, rt) == AnchorAt(env, t, rt);
    assert forall n :: NullifierAt(s, n) == NullifierAt(t, n);
  }

  lemma FillHashes(env: Env, top: Layer, below: Stack, block: Hash, anchor: Hash)
    requires LayerOk(env, top, below)
    requires block == top.block || (top.block == NULL && block == BestBlock(below))
    requires anchor == top.anchor || (top.anchor == NULL && anchor == BestAnchor(below))
    ensures var filled := top.(block := block, anchor := anchor);
            LayerOk(env, filled, below) && SameAnswers(env, Cache(top, below), Cache(filled, below))
  {
    var filled := top.(block := block, anchor := anchor);
    var s, t := Cache(top, below), Cache(filled, below);
    assert forall o :: CoinAt(s, o) == CoinAt(t, o);
    assert forall rt :: AnchorAt(env, s, rt) == AnchorAt(env, t, rt);
    assert forall n :: NullifierAt(s, n) == NullifierAt(t, n);
  }

  /** Reading below and then recording the answer on top leaves the whole stack answering alike. */
  lemma Recorded(env: Env, s: Stack, below: Stack, filled: Layer)
    requires s.Cache? && LayerOk(env, s.top, s.below)
    requires Consistent(env, below) && Same(env, s.below, below)
    requires LayerOk(env, filled, below)
    requires SameAnswers(env, Cache(s.top, below), Cache(filled, below))
    ensures Consistent(env, Cache(filled, below)) && Same(env, s, Cache(filled, below))
  {
    LayerOkTransfer(env, s.top, s.below, below);
    assert SameAnswers(env, s, Cache(filled, below)) by {
      assert s == Cache(s.top, s.below);
    }
  }

  // ---------- reading ----------

  lemma {:induction false} FetchCoinReads(env: Env, s: Stack, o: OutPoint)
    requires s.Cache? && Consistent(env, s)
    ensures var (t, e) := FetchCoin(env, s, o);
            && Consistent(env, t) && Same(env, s, t)
            && CoinAt(s, o) == (if e.Some? then Unspent(e.value.coin) else None)
    decreases s, 0
  {
    if o in s.top.coins {
      SameRefl(env, s);
    } else {
      GetCoinReads(env, s.below, o);
      var (below, found) := GetCoin(env, s.below, o);
      LayerOkTransfer(env, s.top, s.below, below);
      var filled := FetchCoin(env, s, o).0.top;
      if found.Some? { FillCoin(env, s.top, below, o, filled.coins[o], filled.usage); }
      Recorded(env, s, below, filled);
    }
  }

  /** Reading a coin changes no answer at any depth, and it returns what the flat view holds. */
  lemma {:induction false} GetCoinReads(env: Env, s: Stack, o: OutPoint)
    requires Consistent(env, s)
    ensures var (t, c) := GetCoin(env, s, o);
            && Consistent(env, t) && Same(env, s, t)
            && CoinAt(s, o) == (if c.Some? then Unspent(c.value) else None)
            && (s.Cache? ==> c == CoinAt(s, o))
    decreases s, 1
  {
    if s.Cache? { FetchCoinReads(env, s, o); } else { SameRefl(env, s); }
  }

  lemma {:induction false} GetAnchorReads(env: Env, s: Stack, rt: Hash)
    requires Consistent(env, s)
    ensures var (t, tree) := GetAnchor(env, s, rt);
            && Consistent(env, t) && Same(env, s, t)
            && tree == AnchorAt(env, s, rt)
            && t.Cache? == s.Cache?
            && (s.Cache? ==> t.top.anchor == s.top.anchor && t.top.block == s.top.block)
  {
    if s.Base? || rt in s.top.anchors {
      SameRefl(env, s);
    } else {
      GetAnchorReads(env, s.below, rt);
      var (below, found) := GetAnchor(env, s.below, rt);
      LayerOkTransfer(env, s.top, s.below, below);
      var filled := GetAnchor(env, s, rt).0.top;
      if found.Some? { FillAnchor(env, s.top, below, rt, filled.anchors[rt], filled.usage); }
      Recorded(env, s, below, filled);
    }
  }

  lemma {:induction false} GetNullifierReads(env: Env, s: Stack, nf: Hash)
    requires Consistent(env, s)
    ensures var (t, spent) := GetNullifier(s, nf);
            && Consistent(env, t) && Same(env, s, t)
            && spent == NullifierAt(s, nf)
            && (s.Cache? ==> t.Cache? && t.top.anchor == s.top.anchor && t.top.block == s.top.block)
  {
    if s.Base? || nf in s.top.nullifiers {
      SameRefl(env, s);
    } else {
      GetNullifierReads(env, s.below, nf);
      var (below, spent) := GetNullifier(s.below, nf);
      LayerOkTransfer(env, s.top, s.below, below);
      var filled := GetNullifier(s, nf).0.top;
      FillNullifier(env, s.top, below, nf, filled.nullifiers[nf]);
      Recorded(env, s, below, filled);
    }
  }

  lemma {:induction false} GetBestBlockReads(env: Env, s: Stack)
    requires Consistent(env, s)
    ensures var (t, h) := GetBestBlock(s);
            && Consistent(env, t) && Same(env, s, t)
            && h == BestBlock(s)
            && (s.Cache? ==> t.Cache? && t.top == s.top.(block := h))
  {
    if s.Base? || s.top.block != NULL {
      SameRefl(env, s);
    } else {
      GetBestBlockReads(env, s.below);
      var (below, h) := GetBestBlock(s.below);
      LayerOkTransfer(env, s.top, s.below, below);
      FillHashes(env, s.top, below, h, s.top.anchor);
      Recorded(env, s, below, s.top.(block := h));
    }
  }

  lemma {:induction false} GetBestAnchorReads(env: Env, s: Stack)
    requires Consistent(env, s)
    ensures var (t, h) := GetBestAnchor(s);
            && Consistent(env, t) && Same(env, s, t)
            && h == BestAnchor(s)
            && (s.Cache? ==> t.Cache? && t.top == s.top.(anchor := h))
  {
    if s.Base? || s.top.anchor != NULL {
      SameRefl(env, s);
    } else {
      GetBestAnchorReads(env, s.below);
      var (below, h) := GetBestAnchor(s.below);
      LayerOkTransfer(env, s.top, s.below, below);
      FillHashes(env, s.top, below, s.top.block, h);
      Recorded(env, s, below, s.top.(anchor := h));
    }
  }

  /** `HaveInputs` accepts exactly when the flat view has every input. */
  lemma {:induction false} HaveInputsReads(env: Env, s: Stack, inputs: seq<OutPoint>)
    requires s.Cache? && Consistent(env, s)
    ensures var (t, ok) := HaveInputs(env, s, inputs);
            && Consistent(env, t) && Same(env, s, t)
            && ok == (forall o :: o in inputs ==> CoinAt(s, o).Some?)
    decreases |inputs|
  {
    if inputs == [] {
      SameRefl(env, s);
    } else {
      FetchCoinReads(env, s, inputs[0]);
      var (s', entry) := FetchCoin(env, s, inputs[0]);
      assert inputs == [inputs[0]] + inputs[1..];
      if entry.Some? && !entry.value.coin.IsSpent() {
        HaveInputsReads(env, s', inputs[1..]);
        SameTrans(env, s, s', HaveInputs(env, s', inputs[1..]).0);
        assert forall o :: CoinAt(s, o) == CoinAt(s', o);
        assert CoinAt(s, inputs[0]).Some?;
        assert forall o :: o in inputs <==> o == inputs[0] || o in inputs[1..];
      } else {
        assert CoinAt(s, inputs[0]).None? && inputs[0] in inputs;
      }
    }
  }

  ghost predicate SpendAllowed(env: Env, s: Stack, d: Spend) {
    !NullifierAt(s, d.nullifier) && AnchorAt(env, s, d.anchor).Some?
  }

  /** Shielded spends pass exactly when no nullifier is used up and every anchor is known. */
  lemma {:induction false} HaveShieldedReads(env: Env, s: Stack, spends: seq<Spend>)
    requires Consistent(env, s)
    ensures var (t, ok) := HaveShielded(env, s, spends);
            && Consistent(env, t) && Same(env, s, t)
            && ok == (forall d :: d in spends ==> SpendAllowed(env, s, d))
    decreases |spends|
  {
    if spends == [] {
      SameRefl(env, s);
    } else {
      var d := spends[0];
      assert spends == [d] + spends[1..];
      GetNullifierReads(env, s, d.nullifier);
      var (s1, spent) := GetNullifier(s, d.nullifier);
      if spent {
        assert !SpendAllowed(env, s, d);
      } else {
        GetAnchorReads(env, s1, d.anchor);
        var (s2, tree) := GetAnchor(env, s1, d.anchor);
        SameTrans(env, s, s1, s2);
        if tree.None? {
          assert !SpendAllowed(env, s, d);
        } else {
          HaveShieldedReads(env, s2, spends[1..]);
          SameTrans(env, s, s2, HaveShielded(env, s2, spends[1..]).0);
          assert forall e :: SpendAllowed(env, s, e) == SpendAllowed(env, s2, e);
        }
      }
    }
  }

  // ---------- the best hashes of all layers ----------

  /** The best-block hash each layer has of its own, top first; a cache may have none. */
  function Blocks(s: Stack): (hs: seq<Hash>)
    ensures hs != []
  {
    match s
    case Base(db) => [db.block]
    case Cache(top, below) => [top.block] + Blocks(below)
  }

  function Roots(s: Stack): (hs: seq<Hash>)
    ensures hs != []
  {
    match s
    case Base(db) => [db.anchor]
    case Cache(top, below) => [top.anchor] + Roots(below)
  }

  /** The hash a layer answers with: its own, or that of the nearest layer below that has one. */
  function Best(hs: seq<Hash>): Hash
    requires hs != []
  {
    if |hs| == 1 || hs[0] != NULL then hs[0] else Best(hs[1..])
  }

  /** What reading the best hash leaves: every layer that passed the question on has remembered the answer. */
  function Filled(hs: seq<Hash>): (r: seq<Hash>)
    requires hs != []
    ensures |r| == |hs| && r[0] == Best(hs)
  {
    if |hs| == 1 || hs[0] != NULL then hs else [Best(hs)] + Filled(hs[1..])
  }

  lemma {:induction false} BestIs(s: Stack)
    ensures BestBlock(s) == Best(Blocks(s)) && BestAnchor(s) == Best(Roots(s))
  {
    if s.Cache? {
      BestIs(s.below);
      assert Blocks(s)[1..] == Blocks(s.below) && Roots(s)[1..] == Roots(s.below);
    }
  }

  /** Filling in changes no answer of any layer. */
  lemma {:induction false} FilledBest(hs: seq<Hash>, k: nat)
    requires k < |hs|
    ensures Best(Filled(hs)[k..]) == Best(hs[k..])
  {
    if |hs| > 1 && hs[0] == NULL {
      assert Filled(hs)[1..] == Filled(hs[1..]);
      if k == 0 {
        assert hs[0..] == hs && Filled(hs)[0..] == Filled(hs);
        FilledBest(hs[1..], 0);
        assert Filled(hs[1..])[0..] == Filled(hs[1..]) && hs[1..][0..] == hs[1..];
      } else {
        FilledBest(hs[1..], k - 1);
        assert Filled(hs)[k..] == Filled(hs[1..])[k - 1..] && hs[k..] == hs[1..][k - 1..];
      }
    }
  }

  lemma {:induction false} FetchCoinHashes(env: Env, s: Stack, o: OutPoint)
    requires s.Cache?
    ensures var t := FetchCoin(env, s, o).0; Blocks(t) == Blocks(s) && Roots(t) == Roots(s)
    decreases s, 0
  {
    if o !in s.top.coins { GetCoinHashes(env, s.below, o); }
  }

  lemma {:induction false} GetCoinHashes(env: Env, s: Stack, o: OutPoint)
    ensures var t := GetCoin(env, s, o).0; Blocks(t) == Blocks(s) && Roots(t) == Roots(s)
    decreases s, 1
  {
    if s.Cache? { FetchCoinHashes(env, s, o); }
  }

  lemma {:induction false} GetAnchorHashes(env: Env, s: Stack, rt: Hash)
    ensures var t := GetAnchor(env, s, rt).0; Blocks(t) == Blocks(s) && Roots(t) == Roots(s)
  {
    if s.Cache? && rt !in s.top.anchors { GetAnchorHashes(env, s.below, rt); }
  }

  lemma {:induction false} GetNullifierHashes(s: Stack, nf: Hash)
    ensures var t := GetNullifier(s, nf).0; Blocks(t) == Blocks(s) && Roots(t) == Roots(s)
  {
    if s.Cache? && nf !in s.top.nullifiers { GetNullifierHashes(s.below, nf); }
  }

  lemma {:induction false} GetBestBlockHashes(s: Stack)
    ensures var t := GetBestBlock(s).0; Blocks(t) == Filled(Blocks(s)) && Roots(t) == Roots(s)
  {
    BestIs(s);
    if s.Cache? {
      assert Blocks(s)[1..] == Blocks(s.below);
      if s.top.block == NULL {
        GetBestBlockHashes(s.below);
        BestIs(s.below);
        GetBestBlockIs(s.below);
      }
    }
  }

  lemma {:induction false} GetBestAnchorHashes(s: Stack)
    ensures var t := GetBestAnchor(s).0; Roots(t) == Filled(Roots(s)) && Blocks(t) == Blocks(s)
  {
    BestIs(s);
    if s.Cache? {
      assert Roots(s)[1..] == Roots(s.below);
      if s.top.anchor == NULL {
        GetBestAnchorHashes(s.below);
        BestIs(s.below);
        GetBestAnchorIs(s.below);
      }
    }
  }

  lemma {:induction false} GetBestBlockIs(s: Stack)
    ensures GetBestBlock(s).1 == BestBlock(s)
  {
    if s.Cache? { GetBestBlockIs(s.below); }
  }

  lemma {:induction false} GetBestAnchorIs(s: Stack)
    ensures GetBestAnchor(s).1 == BestAnchor(s)
  {
    if s.Cache? { GetBestAnchorIs(s.below); }
  }

  lemma {:induction false} HaveInputsHashes(env: Env, s: Stack, inputs: seq<OutPoint>)
    requires s.Cache?
    ensures var t := HaveInputs(env, s, inputs).0; Blocks(t) == Blocks(s) && Roots(t) == Roots(s)
    decreases |inputs|
  {
    if inputs != [] {
      FetchCoinHashes(env, s, inputs[0]);
      HaveInputsHashes(env, FetchCoin(env, s, inputs[0]).0, inputs[1..]);
    }
  }

  lemma {:induction false} HaveShieldedHashes(env: Env, s: Stack, spends: seq<Spend>)
    ensures var t := HaveShielded(env, s, spends).0; Blocks(t) == Blocks(s) && Roots(t) == Roots(s)
    decreases |spends|
  {
    if spends != [] {
      GetNullifierHashes(s, spends[0].nullifier);
      var s1 := GetNullifier(s, spends[0].nullifier).0;
      GetAnchorHashes(env, s1, spends[0].anchor);
      HaveShieldedHashes(env, GetAnchor(env, s1, spends[0].anchor).0, spends[1..]);
    }
  }
}
