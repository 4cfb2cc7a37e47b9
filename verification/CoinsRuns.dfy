/**
  Whole runs. A stack of caches, edited at its top by any sequence of operations, answers like a
  list of flat views: one per layer, where `Flush` and `Sync` copy the top view one level down,
  a new cache starts as a copy of the view below it, and dropping a cache forgets its view. The best
  block and the best anchor are asked down the list, since a cache may have none of its own.
 */
module CoinsRuns {

  import opened Collections
  import opened CoinsModel
  import opened CoinsReads
  import opened CoinsWrites

  datatype Op =
    | ReadCoin(o: OutPoint)
    | AddOne(o: OutPoint, coin: Coin, overwrite: bool)
    | SpendOne(o: OutPoint)
    | Forget(o: OutPoint)
    | ReadBlock
    | WriteBlock(h: Hash)
    | ReadAnchor(rt: Hash)
    | ReadBestAnchor
    | Push(tree: Tree)
    | Pop(rt: Hash)
    | ReadNullifier(nf: Hash)
    | Mark(tx: Tx, spent: bool)
    | CheckShielded(tx: Tx)
    | CheckInputs(tx: Tx)
    | FlushTop
    | SyncTop
    | NewCache
    | DropCache

  datatype Answer =
    | Nothing
    | TheCoin(coin: Option<Coin>)
    | TheTree(tree: Option<Tree>)
    | TheHash(h: Hash)
    | Verdict(ok: bool)

  /** One operation on the top cache; nothing where the source throws or its assertion fails. */
  ghost function Step(env: Env, s: Stack, op: Op): (r: Option<(Stack, Answer)>)
    requires s.Cache?
  {
    match op
    case ReadCoin(o) => var (t, c) := GetCoin(env, s, o); Some((t, TheCoin(c)))
    case AddOne(o, coin, overwrite) =>
      if coin.IsSpent() then None
      else
        var r := AddCoin(env, s, o, coin, overwrite);
        if r.Done? then Some((r.stack, Nothing)) else None
    case SpendOne(o) => var (t, _, coin) := SpendCoin(env, s, o); Some((t, TheCoin(Unspent(coin))))
    case Forget(o) => Some((Uncache(env, s, o), Nothing))
    case ReadBlock => var (t, h) := GetBestBlock(s); Some((t, TheHash(h)))
    case WriteBlock(h) => Some((SetBestBlock(s, h), Nothing))
    case ReadAnchor(rt) => var (t, tree) := GetAnchor(env, s, rt); Some((t, TheTree(tree)))
    case ReadBestAnchor => var (t, h) := GetBestAnchor(s); Some((t, TheHash(h)))
    case Push(tree) => Some((PushAnchor(env, s, tree), Nothing))
    case Pop(rt) => var r := PopAnchor(env, s, rt); if r.Done? then Some((r.stack, Nothing)) else None
    case ReadNullifier(nf) => var (t, b) := GetNullifier(s, nf); Some((t, Verdict(b)))
    case Mark(tx, spent) => Some((SetNullifiers(s, tx, spent), Nothing))
    case CheckShielded(tx) => var (t, ok) := HaveShieldedRequirements(env, s, tx); Some((t, Verdict(ok)))
    case CheckInputs(tx) =>
      if tx.coinbase then Some((s, Verdict(true)))
      else var (t, ok) := HaveInputs(env, s, tx.inputs); Some((t, Verdict(ok)))
    case FlushTop => if WouldThrow(s.below, s.top) then None else Some((Flush(env, s), Nothing))
    case SyncTop => if WouldThrow(s.below, s.top) then None else Some((Sync(env, s), Nothing))
    case NewCache => Some((Cache(EMPTY_LAYER, s), Nothing))
    case DropCache => Some((s.below, Nothing))
  }

  // ---------- the same run on flat views, top first ----------

  /** What one layer shows, with the best hashes it has of its own. */
  datatype View = View(coins: map<OutPoint, Coin>,
                       anchors: map<Hash, Tree>,
                       nullifiers: set<Hash>,
                       block: Hash,
                       anchor: Hash)

  function BlocksOf(vs: seq<View>): seq<Hash> { seq(|vs|, i requires 0 <= i < |vs| => vs[i].block) }

  function RootsOf(vs: seq<View>): seq<Hash> { seq(|vs|, i requires 0 <= i < |vs| => vs[i].anchor) }

  function BestBlockOf(vs: seq<View>): Hash
    requires vs != []
  {
    Best(BlocksOf(vs))
  }

  function BestRootOf(vs: seq<View>): Hash
    requires vs != []
  {
    Best(RootsOf(vs))
  }

  ghost predicate ShowsData(env: Env, s: Stack, v: View) {
    && (forall o :: CoinAt(s, o) == Lookup(v.coins, o))
    && (forall rt :: AnchorAt(env, s, rt) == Lookup(v.anchors, rt))
    && (forall nf :: NullifierAt(s, nf) == (nf in v.nullifiers))
  }

  ghost predicate RefinesData(env: Env, s: Stack, vs: seq<View>) {
    && vs != []
    && ShowsData(env, s, vs[0])
    && (if s.Cache? then RefinesData(env, s.below, vs[1..]) else |vs| == 1)
  }

  ghost predicate Refines(env: Env, s: Stack, vs: seq<View>) {
    RefinesData(env, s, vs) && Blocks(s) == BlocksOf(vs) && Roots(s) == RootsOf(vs)
  }

  /** The view of the top with the best hashes it answers with. */
  function Resolved(vs: seq<View>): Flat
    requires vs != []
  {
    Flat(vs[0].coins, vs[0].anchors, vs[0].nullifiers, BestBlockOf(vs), BestRootOf(vs))
  }

  /** What callers owe: the documented and asserted preconditions of the source, no more. */
  predicate Contract(vs: seq<View>, op: Op)
    requires vs != []
  {
    match op
    case AddOne(o, coin, overwrite) => !coin.IsSpent() && (overwrite || !Storable(coin.out.script) || o !in vs[0].coins)
    case Pop(rt) => PopAllowed(Resolved(vs), rt)
    case FlushTop => |vs| == 2 ==> vs[0].block != NULL
    case SyncTop => |vs| == 2 ==> vs[0].block != NULL
    case DropCache => |vs| >= 3
    case _ => true
  }

  function WithBlocks(vs: seq<View>, hs: seq<Hash>): seq<View>
    requires |hs| == |vs|
  {
    seq(|vs|, i requires 0 <= i < |vs| => vs[i].(block := hs[i]))
  }

  function WithRoots(vs: seq<View>, hs: seq<Hash>): seq<View>
    requires |hs| == |vs|
  {
    seq(|vs|, i requires 0 <= i < |vs| => vs[i].(anchor := hs[i]))
  }

  /** The layers remember the best block, or the best anchor, that the top asked for. */
  function BlocksFilled(vs: seq<View>): (r: seq<View>)
    requires vs != []
    ensures |r| == |vs|
  {
    WithBlocks(vs, Filled(BlocksOf(vs)))
  }

  function RootsFilled(vs: seq<View>): (r: seq<View>)
    requires vs != []
    ensures |r| == |vs|
  {
    WithRoots(vs, Filled(RootsOf(vs)))
  }

  function EditTop(env: Env, v: View, op: Op): View {
    match op
    case AddOne(o, coin, _) => if Storable(coin.out.script) then v.(coins := v.coins[o := coin]) else v
    case SpendOne(o) => v.(coins := v.coins - {o})
    case WriteBlock(h) => v.(block := h)
    case Push(tree) =>
      var rt := env.root(tree);
      if v.anchor == rt then v else v.(anchors := v.anchors[rt := tree], anchor := rt)
    case Pop(rt) => if v.anchor == rt then v else v.(anchors := v.anchors - {v.anchor}, anchor := rt)
    case Mark(tx, spent) =>
      if !tx.shieldedVersion then v
      else if spent then v.(nullifiers := v.nullifiers + NullifiersOf(tx.spends))
      else v.(nullifiers := v.nullifiers - NullifiersOf(tx.spends))
    case _ => v
  }

  /** The views that have to answer before the operation: pushing and popping ask for the best anchor first. */
  function Asked(vs: seq<View>, op: Op): (r: seq<View>)
    requires vs != []
    ensures |r| == |vs|
  {
    match op
    case ReadBlock => BlocksFilled(vs)
    case ReadBestAnchor => RootsFilled(vs)
    case Push(_) => RootsFilled(vs)
    case Pop(_) => RootsFilled(vs)
    case _ => vs
  }

  /** The top written into the database, which always knows the empty root and keeps its best anchor over a null one. */
  function Stored(env: Env, v: View, db: View): (View, View) {
    var t := v.(anchors := v.anchors[env.EmptyRoot() := []]);
    (t, t.(anchor := if v.anchor == NULL then db.anchor else v.anchor))
  }

  function WrittenDown(env: Env, vs: seq<View>): seq<View>
    requires |vs| >= 2
  {
    if |vs| == 2 then var (t, db) := Stored(env, vs[0], vs[1]); [t, db] else [vs[0], vs[0]] + vs[2..]
  }

  function FlatStep(env: Env, vs: seq<View>, op: Op): (r: seq<View>)
    requires |vs| >= 2
  {
    match op
    case FlushTop => WrittenDown(env, vs)
    case SyncTop => WrittenDown(env, vs)
    case NewCache => [vs[0].(block := NULL, anchor := NULL)] + vs
    case DropCache => vs[1..]
    case _ => var asked := Asked(vs, op); [EditTop(env, asked[0], op)] + asked[1..]
  }

  predicate FlatSpendAllowed(v: View, d: Spend) {
    d.nullifier !in v.nullifiers && d.anchor in v.anchors
  }

  function FlatAnswer(vs: seq<View>, op: Op): Answer
    requires vs != []
  {
    match op
    case ReadCoin(o) => TheCoin(Lookup(vs[0].coins, o))
    case SpendOne(o) => TheCoin(Lookup(vs[0].coins, o))
    case ReadBlock => TheHash(BestBlockOf(vs))
    case ReadAnchor(rt) => TheTree(Lookup(vs[0].anchors, rt))
    case ReadBestAnchor => TheHash(BestRootOf(vs))
    case ReadNullifier(nf) => Verdict(nf in vs[0].nullifiers)
    case CheckShielded(tx) =>
      Verdict(!tx.HasShieldedPayload() || forall d :: d in tx.spends ==> FlatSpendAllowed(vs[0], d))
    case CheckInputs(tx) => Verdict(tx.coinbase || forall o :: o in tx.inputs ==> o in vs[0].coins)
    case _ => Nothing
  }

  // ---------- views and stacks ----------

  lemma {:induction false} RefinesDepth(env: Env, s: Stack, vs: seq<View>)
    requires RefinesData(env, s, vs)
    ensures |Blocks(s)| == |Roots(s)| == |vs| && (s.Cache? <==> |vs| >= 2)
  {
    if s.Cache? { RefinesDepth(env, s.below, vs[1..]); }
  }

  /** Asking down the list gives what the stack answers. */
  lemma RefinesShows(env: Env, s: Stack, vs: seq<View>)
    requires Refines(env, s, vs)
    ensures Shows(env, s, Resolved(vs))
  {
    BestIs(s);
  }

  lemma {:induction false} RefinesSame(env: Env, s: Stack, t: Stack, vs: seq<View>)
    requires RefinesData(env, s, vs) && Same(env, s, t)
    ensures RefinesData(env, t, vs)
  {
    if s.Cache? { RefinesSame(env, s.below, t.below, vs[1..]); }
  }

  /** The data of a list of views does not change with its hashes. */
  predicate DataAlike(vs: seq<View>, ws: seq<View>) {
    |vs| == |ws| && forall i :: 0 <= i < |vs| ==> vs[i] == ws[i].(block := vs[i].block, anchor := vs[i].anchor)
  }

  lemma {:induction false} RefinesAlike(env: Env, s: Stack, vs: seq<View>, ws: seq<View>)
    requires RefinesData(env, s, vs) && DataAlike(vs, ws)
    ensures RefinesData(env, s, ws)
  {
    assert vs[0] == ws[0].(block := vs[0].block, anchor := vs[0].anchor);
    if s.Cache? { RefinesAlike(env, s.below, vs[1..], ws[1..]); }
  }

  lemma AskedAlike(vs: seq<View>, op: Op)
    requires vs != []
    ensures DataAlike(vs, Asked(vs, op))
    ensures BlocksOf(Asked(vs, op)) == if op.ReadBlock? then Filled(BlocksOf(vs)) else BlocksOf(vs)
    ensures RootsOf(Asked(vs, op)) ==
            if op.ReadBestAnchor? || op.Push? || op.Pop? then Filled(RootsOf(vs)) else RootsOf(vs)
  {
  }

  /** A stack whose top shows `v` and whose lower part answers as before refines the edited list. */
  lemma RefinesEdit(env: Env, s: Stack, t: Stack, vs: seq<View>, v: View)
    requires s.Cache? && t.Cache? && RefinesData(env, s, vs)
    requires Same(env, s.below, t.below) && ShowsData(env, t, v)
    ensures RefinesData(env, t, [v] + vs[1..])
  {
    RefinesSame(env, s.below, t.below, vs[1..]);
    assert ([v] + vs[1..])[1..] == vs[1..];
  }

  /** Reading operations leave the list of flat views as it is. */
  predicate IsRead(op: Op) {
    op.ReadCoin? || op.ReadBlock? || op.ReadAnchor? || op.ReadBestAnchor? || op.ReadNullifier?
    || op.CheckShielded? || op.CheckInputs?
  }

  lemma CheckShieldedStep(env: Env, s: Stack, vs: seq<View>, tx: Tx)
    requires s.Cache? && Consistent(env, s) && Refines(env, s, vs)
    ensures var (t, ok) := HaveShieldedRequirements(env, s, tx);
            && Consistent(env, t) && Same(env, s, t) && Verdict(ok) == FlatAnswer(vs, CheckShielded(tx))
            && Blocks(t) == Blocks(s) && Roots(t) == Roots(s)
  {
    HaveShieldedReads(env, s, tx.spends);
    HaveShieldedHashes(env, s, tx.spends);
    SameRefl(env, s);
    hide Blocks, Roots;
    assert forall d :: SpendAllowed(env, s, d) == FlatSpendAllowed(vs[0], d);
  }

  lemma CheckInputsStep(env: Env, s: Stack, vs: seq<View>, tx: Tx)
    requires s.Cache? && Consistent(env, s) && Refines(env, s, vs)
    ensures var (t, ok) := if tx.coinbase then (s, true) else HaveInputs(env, s, tx.inputs);
            && Consistent(env, t) && Same(env, s, t) && Verdict(ok) == FlatAnswer(vs, CheckInputs(tx))
            && Blocks(t) == Blocks(s) && Roots(t) == Roots(s)
  {
    HaveInputsReads(env, s, tx.inputs);
    HaveInputsHashes(env, s, tx.inputs);
    SameRefl(env, s);
    hide Blocks, Roots;
    assert forall o :: CoinAt(s, o).Some? == (o in vs[0].coins);
  }

  lemma ReadStep(env: Env, s: Stack, vs: seq<View>, op: Op)
    requires s.Cache? && Consistent(env, s) && Refines(env, s, vs) && IsRead(op)
    ensures var r := Step(env, s, op);
            && r.Some? && Consistent(env, r.value.0) && Same(env, s, r.value.0) && r.value.1 == FlatAnswer(vs, op)
            && Blocks(r.value.0) == (if op.ReadBlock? then Filled(Blocks(s)) else Blocks(s))
            && Roots(r.value.0) == (if op.ReadBestAnchor? then Filled(Roots(s)) else Roots(s))
  {
    BestIs(s);
    hide Blocks, Roots, Filled, Best;
    match op
    case ReadCoin(o) => GetCoinReads(env, s, o); GetCoinHashes(env, s, o);
    case ReadBlock => GetBestBlockReads(env, s); GetBestBlockHashes(s);
    case ReadAnchor(rt) => GetAnchorReads(env, s, rt); GetAnchorHashes(env, s, rt);
    case ReadBestAnchor => GetBestAnchorReads(env, s); GetBestAnchorHashes(s);
    case ReadNullifier(nf) => GetNullifierReads(env, s, nf); GetNullifierHashes(s, nf);
    case CheckShielded(tx) => CheckShieldedStep(env, s, vs, tx);
    case CheckInputs(tx) => CheckInputsStep(env, s, vs, tx);
  }

  predicate IsEdit(op: Op) {
    op.AddOne? || op.SpendOne? || op.Forget? || op.WriteBlock? || op.Push? || op.Pop? || op.Mark?
  }

  predicate IsAnchorEdit(op: Op) { op.Push? || op.Pop? }

  /** What an edit does to the top, for the answers about coins, anchors and nullifiers. */
  ghost predicate EditsData(env: Env, s: Stack, vs: seq<View>, op: Op)
    requires s.Cache? && vs != []
  {
    var r := Step(env, s, op);
    && r.Some? && r.value.0.Cache? && Consistent(env, r.value.0)
    && Same(env, s.below, r.value.0.below)
    && ShowsData(env, r.value.0, EditTop(env, Asked(vs, op)[0], op)) && r.value.1 == FlatAnswer(vs, op)
  }

  lemma EditStep(env: Env, s: Stack, vs: seq<View>, op: Op)
    requires s.Cache? && Consistent(env, s) && vs != [] && Shows(env, s, Resolved(vs))
    requires IsEdit(op) && !IsAnchorEdit(op) && Contract(vs, op)
    ensures EditsData(env, s, vs, op)
  {
    SameRefl(env, s.below);
    var v := vs[0];
    var f := Flat(v.coins, v.anchors, v.nullifiers, Resolved(vs).block, Resolved(vs).anchor);
    hide BestBlockOf, BestRootOf, Shows, ShowsData, Same, Consistent;
    match op
    case AddOne(o, coin, overwrite) =>
      AddCoinWrites(env, s, f, o, coin, overwrite);
      var t := AddCoin(env, s, o, coin, overwrite).stack;
      ViewShown(env, t, if Storable(coin.out.script) then f.(coins := f.coins[o := coin]) else f, EditTop(env, v, op));
    case SpendOne(o) =>
      SpendCoinWrites(env, s, f, o);
      ViewShown(env, SpendCoin(env, s, o).0, f.(coins := f.coins - {o}), EditTop(env, v, op));
    case Forget(o) =>
      UncacheWrites(env, s, f, o);
      ViewShown(env, Uncache(env, s, o), f, v);
    case WriteBlock(h) =>
      SetBestBlockWrites(env, s, f, h);
      var t := SetBestBlock(s, h);
      ViewShown(env, t, f.(block := if h != NULL then h else BestBlock(s.below)), EditTop(env, v, op));
    case Mark(tx, spent) => MarkStep(env, s, f, v, tx, spent);
  }

  lemma ViewShown(env: Env, t: Stack, f: Flat, v: View)
    requires Shows(env, t, f) && f.coins == v.coins && f.anchors == v.anchors && f.nullifiers == v.nullifiers
    ensures ShowsData(env, t, v)
  {
  }

  lemma MarkStep(env: Env, s: Stack, f: Flat, v: View, tx: Tx, spent: bool)
    requires s.Cache? && Consistent(env, s) && Shows(env, s, f)
    requires f.coins == v.coins && f.anchors == v.anchors && f.nullifiers == v.nullifiers
    ensures var t := SetNullifiers(s, tx, spent);
            && t.Cache? && t.below == s.below && Consistent(env, t)
            && ShowsData(env, t, EditTop(env, v, Mark(tx, spent)))
  {
    hide Shows, ShowsData, Consistent;
    SetNullifiersWrites(env, s, f, tx, spent);
    var t := SetNullifiers(s, tx, spent);
    if !tx.shieldedVersion {
      ViewShown(env, t, f, v);
    } else if spent {
      ViewShown(env, t, f.(nullifiers := f.nullifiers + NullifiersOf(tx.spends)), EditTop(env, v, Mark(tx, spent)));
    } else {
      ViewShown(env, t, f.(nullifiers := f.nullifiers - NullifiersOf(tx.spends)), EditTop(env, v, Mark(tx, spent)));
    }
  }

  lemma AnchorStep(env: Env, s: Stack, vs: seq<View>, op: Op)
    requires s.Cache? && Consistent(env, s) && vs != [] && Shows(env, s, Resolved(vs))
    requires IsAnchorEdit(op) && Contract(vs, op)
    ensures EditsData(env, s, vs, op)
  {
    AskedAlike(vs, op);
    var v, f := Asked(vs, op)[0], Resolved(vs);
    assert v.anchor == RootsOf(Asked(vs, op))[0] == BestRootOf(vs) && v.anchors == vs[0].anchors;
    assert v.coins == f.coins && v.nullifiers == f.nullifiers;
    hide BestBlockOf, BestRootOf, RootsOf, BlocksOf, Asked, DataAlike, Shows, ShowsData, Same, Consistent;
    match op
    case Push(tree) =>
      PushAnchorWrites(env, s, f, tree);
      var t, rt := PushAnchor(env, s, tree), env.root(tree);
      if f.anchor == rt {
        ViewShown(env, t, f, v);
      } else {
        ViewShown(env, t, f.(anchors := f.anchors[rt := tree], anchor := Given(rt, s.below)), EditTop(env, v, op));
      }
    case Pop(rt) =>
      PopAnchorWrites(env, s, f, rt);
      var t := PopAnchor(env, s, rt).stack;
      if f.anchor == rt {
        ViewShown(env, t, f, v);
      } else {
        ViewShown(env, t, f.(anchors := f.anchors - {f.anchor}, anchor := Given(rt, s.below)), EditTop(env, v, op));
      }
  }

  /** What an edit does to the best hashes of all layers. */
  ghost predicate EditsHashes(env: Env, s: Stack, vs: seq<View>, op: Op)
    requires s.Cache? && |vs| >= 2 && Step(env, s, op).Some?
  {
    var t := Step(env, s, op).value.0;
    var gs := FlatStep(env, vs, op);
    Blocks(t) == BlocksOf(gs) && Roots(t) == RootsOf(gs)
  }

  /** The hashes of the edited list, from those of the list that was asked. */
  lemma EditedHashes(env: Env, vs: seq<View>, op: Op)
    requires |vs| >= 2 && IsEdit(op)
    ensures var gs := FlatStep(env, vs, op);
            var asked := Asked(vs, op);
            && gs != [] && gs[0] == EditTop(env, asked[0], op)
            && BlocksOf(gs) == [gs[0].block] + BlocksOf(vs)[1..] && asked[0].block == BlocksOf(vs)[0]
            && RootsOf(gs) == [gs[0].anchor] + RootsOf(asked)[1..] && asked[0].anchor == RootsOf(asked)[0]
  {
    AskedAlike(vs, op);
    var gs, asked := FlatStep(env, vs, op), Asked(vs, op);
    assert BlocksOf(gs) == [gs[0].block] + BlocksOf(asked)[1..];
    assert RootsOf(gs) == [gs[0].anchor] + RootsOf(asked)[1..];
    assert asked[0].block == BlocksOf(asked)[0];
  }

  lemma EditHashes(env: Env, s: Stack, vs: seq<View>, op: Op)
    requires s.Cache? && Refines(env, s, vs) && IsEdit(op) && !IsAnchorEdit(op) && |vs| >= 2 && Step(env, s, op).Some?
    ensures EditsHashes(env, s, vs, op)
  {
    EditedHashes(env, vs, op);
    hide BlocksOf, RootsOf, RefinesData;
    assert Blocks(s)[1..] == Blocks(s.below) && Roots(s)[1..] == Roots(s.below);
    if op.SpendOne? { FetchCoinHashes(env, s, op.o); }
  }

  lemma AnchorEditHashes(env: Env, s: Stack, vs: seq<View>, op: Op)
    requires s.Cache? && Refines(env, s, vs) && IsAnchorEdit(op) && |vs| >= 2 && Step(env, s, op).Some?
    ensures EditsHashes(env, s, vs, op)
  {
    EditedHashes(env, vs, op);
    AskedAlike(vs, op);
    AnchorHashes(env, s, vs);
    hide BlocksOf, RootsOf, RefinesData, Filled, Best;
    var (s1, h) := GetBestAnchor(s);
    assert Blocks(s1)[1..] == Blocks(s1.below) && Roots(s1)[1..] == Roots(s1.below);
    if op.Pop? && h != op.rt {
      GetAnchorHashes(env, s1, h);
      var s2 := GetAnchor(env, s1, h).0;
      assert Blocks(s2)[1..] == Blocks(s2.below) && Roots(s2)[1..] == Roots(s2.below);
    }
  }

  lemma AnchorHashes(env: Env, s: Stack, vs: seq<View>)
    requires s.Cache? && Refines(env, s, vs)
    ensures var (t, h) := GetBestAnchor(s);
            && Roots(t) == Filled(RootsOf(vs)) && Blocks(t) == BlocksOf(vs) && h == Best(RootsOf(vs))
  {
    GetBestAnchorHashes(s);
    GetBestAnchorIs(s);
    BestIs(s);
  }

  lemma NewCacheShows(env: Env, s: Stack)
    requires Consistent(env, s)
    ensures Consistent(env, Cache(EMPTY_LAYER, s)) && SameData(env, s, Cache(EMPTY_LAYER, s))
  {
    EmptyLayerShows(env, Cache(EMPTY_LAYER, s));
  }

  lemma CarriedShows(env: Env, s: Stack, t: Stack, v: View, toDb: bool)
    requires ShowsData(env, s, v) && Carries(env, s, t, toDb)
    ensures ShowsData(env, t, if toDb then v.(anchors := v.anchors[env.EmptyRoot() := []]) else v)
  {
    forall rt ensures AnchorAt(env, t, rt) ==
                      Lookup(if toDb then v.anchors[env.EmptyRoot() := []] else v.anchors, rt) {
      assert AnchorAt(env, s, rt) == Lookup(v.anchors, rt);
    }
    assert forall o :: CoinAt(s, o) == Lookup(v.coins, o);
    assert forall nf :: NullifierAt(s, nf) == (nf in v.nullifiers);
  }

  lemma WriteDownStep(env: Env, s: Stack, vs: seq<View>, t: Stack)
    requires s.Cache? && t.Cache? && Refines(env, s, vs) && HandsOn(s, t)
    requires Carries(env, s, t, s.below.Base?) && Carries(env, s, t.below, s.below.Base?)
    ensures |vs| >= 2 && Refines(env, t, WrittenDown(env, vs))
  {
    RefinesDepth(env, s, vs);
    RefinesDepth(env, s.below, vs[1..]);
    CarriedShows(env, s, t, vs[0], s.below.Base?);
    CarriedShows(env, s, t.below, vs[0], s.below.Base?);
    var gs := WrittenDown(env, vs);
    assert vs[0].block == BlocksOf(vs)[0] && vs[0].anchor == RootsOf(vs)[0] && vs[1].anchor == RootsOf(vs)[1];
    assert BlocksOf(gs) == [vs[0].block, vs[0].block] + BlocksOf(vs)[2..];
    assert RootsOf(gs)[2..] == RootsOf(vs)[2..];
    assert gs[1..][1..] == vs[2..] == vs[1..][1..];
  }

  lemma LayerStep(env: Env, s: Stack, vs: seq<View>, op: Op)
    requires s.Cache? && Consistent(env, s) && Refines(env, s, vs) && Contract(vs, op)
    requires !IsRead(op) && !IsEdit(op)
    ensures |vs| >= 2 && Step(env, s, op).Some?
    ensures var (t, answer) := Step(env, s, op).value;
            && t.Cache? && Consistent(env, t) && Refines(env, t, FlatStep(env, vs, op))
            && answer == Nothing
  {
    RefinesDepth(env, s, vs);
    RefinesDepth(env, s.below, vs[1..]);
    assert vs[0].block == BlocksOf(vs)[0];
    match op
    case FlushTop =>
      FlushWrites(env, s);
      WriteDownStep(env, s, vs, Flush(env, s));
    case SyncTop =>
      SyncWrites(env, s);
      WriteDownStep(env, s, vs, Sync(env, s));
    case NewCache =>
      NewCacheShows(env, s);
      NewViews(env, s, vs);
    case DropCache =>
      assert BlocksOf(vs[1..]) == BlocksOf(vs)[1..] && RootsOf(vs[1..]) == RootsOf(vs)[1..];
  }

  lemma NewViews(env: Env, s: Stack, vs: seq<View>)
    requires Refines(env, s, vs) && SameData(env, s, Cache(EMPTY_LAYER, s))
    ensures Refines(env, Cache(EMPTY_LAYER, s), [vs[0].(block := NULL, anchor := NULL)] + vs)
  {
    var v := vs[0].(block := NULL, anchor := NULL);
    var gs := [v] + vs;
    assert gs[1..] == vs;
    assert BlocksOf(gs) == [NULL] + BlocksOf(vs) && RootsOf(gs) == [NULL] + RootsOf(vs);
    assert ShowsData(env, Cache(EMPTY_LAYER, s), v);
  }

  lemma ReadRefines(env: Env, s: Stack, vs: seq<View>, op: Op)
    requires s.Cache? && Consistent(env, s) && Refines(env, s, vs) && IsRead(op) && |vs| >= 2
    ensures Step(env, s, op).Some?
    ensures var (t, answer) := Step(env, s, op).value;
            && t.Cache? && Consistent(env, t) && Refines(env, t, FlatStep(env, vs, op))
            && answer == FlatAnswer(vs, op)
  {
    ReadStep(env, s, vs, op);
    AskedAlike(vs, op);
    hide Blocks, Roots, BlocksOf, RootsOf, Filled, Step, Asked, FlatAnswer;
    var t, asked := Step(env, s, op).value.0, Asked(vs, op);
    RefinesSame(env, s, t, vs);
    RefinesAlike(env, t, vs, asked);
    assert [asked[0]] + asked[1..] == asked;
  }

  lemma EditRefines(env: Env, s: Stack, vs: seq<View>, op: Op)
    requires s.Cache? && Consistent(env, s) && Refines(env, s, vs) && IsEdit(op) && Contract(vs, op) && |vs| >= 2
    ensures Step(env, s, op).Some?
    ensures var (t, answer) := Step(env, s, op).value;
            && t.Cache? && Consistent(env, t) && Refines(env, t, FlatStep(env, vs, op))
            && answer == FlatAnswer(vs, op)
  {
    RefinesShows(env, s, vs);
    if IsAnchorEdit(op) { AnchorStep(env, s, vs, op); } else { EditStep(env, s, vs, op); }
    if IsAnchorEdit(op) { AnchorEditHashes(env, s, vs, op); } else { EditHashes(env, s, vs, op); }
    AskedAlike(vs, op);
    hide Blocks, Roots, BlocksOf, RootsOf, Filled, Step, Asked, FlatAnswer, EditTop, Contract;
    var asked := Asked(vs, op);
    RefinesAlike(env, s, vs, asked);
    RefinesEdit(env, s, Step(env, s, op).value.0, asked, EditTop(env, asked[0], op));
  }

  /**
    One operation on the top of a stack of any depth does to the flat views exactly what
    `FlatStep` does, returns the flat answer, keeps the stack consistent, and never throws.
   */
  lemma StepRefines(env: Env, s: Stack, vs: seq<View>, op: Op)
    requires s.Cache? && Consistent(env, s) && Refines(env, s, vs) && Contract(vs, op)
    ensures |vs| >= 2 && Step(env, s, op).Some?
    ensures var (t, answer) := Step(env, s, op).value;
            && t.Cache? && Consistent(env, t) && Refines(env, t, FlatStep(env, vs, op))
            && answer == FlatAnswer(vs, op)
  {
    RefinesDepth(env, s, vs);
    if IsRead(op) {
      ReadRefines(env, s, vs, op);
    } else if IsEdit(op) {
      EditRefines(env, s, vs, op);
    } else {
      LayerStep(env, s, vs, op);
    }
  }

  // ---------- runs ----------

  ghost function Run(env: Env, s: Stack, ops: seq<Op>): (r: Option<(Stack, seq<Answer>)>)
    requires s.Cache?
    decreases |ops|
  {
    if ops == [] then Some((s, []))
    else
      var r := Step(env, s, ops[0]);
      if r.None? || !r.value.0.Cache? then None
      else
        var rest := Run(env, r.value.0, ops[1..]);
        if rest.None? then None else Some((rest.value.0, [r.value.1] + rest.value.1))
  }

  function FlatRun(env: Env, vs: seq<View>, ops: seq<Op>): (r: (seq<View>, seq<Answer>))
    decreases |ops|
  {
    if ops == [] || |vs| < 2 then (vs, [])
    else
      var (gs, answers) := FlatRun(env, FlatStep(env, vs, ops[0]), ops[1..]);
      (gs, [FlatAnswer(vs, ops[0])] + answers)
  }

  /** Callers keep their side of the contract at every step of the run. */
  predicate Contracts(env: Env, vs: seq<View>, ops: seq<Op>)
    decreases |ops|
  {
    ops == [] || (|vs| >= 2 && Contract(vs, ops[0]) && Contracts(env, FlatStep(env, vs, ops[0]), ops[1..]))
  }

  /**
    For a stack of caches of any depth and any run of operations that keeps the contract, the run
    never throws, every answer is the answer of the flat views, and the stack it ends in shows the
    flat views it ends in.
   */
  lemma {:induction false} RunRefines(env: Env, s: Stack, vs: seq<View>, ops: seq<Op>)
    requires s.Cache? && Consistent(env, s) && Refines(env, s, vs) && Contracts(env, vs, ops)
    ensures var r := Run(env, s, ops);
            && r.Some? && r.value.0.Cache?
            && Consistent(env, r.value.0)
            && Refines(env, r.value.0, FlatRun(env, vs, ops).0)
            && r.value.1 == FlatRun(env, vs, ops).1
    decreases |ops|
  {
    hide Step, FlatStep, FlatAnswer, Contract, Refines;
    if ops != [] {
      StepRefines(env, s, vs, ops[0]);
      RunRefines(env, Step(env, s, ops[0]).value.0, FlatStep(env, vs, ops[0]), ops[1..]);
    }
  }

  /** Every database is shown by some view, so runs can start from any database. */
  function ViewOf(env: Env, db: Db): View {
    View(map o | o in db.coins && !db.coins[o].IsSpent() :: db.coins[o],
         db.anchors[env.EmptyRoot() := []], db.nullifiers, db.block, db.anchor)
  }

  function StartViews(env: Env, db: Db): seq<View> {
    [ViewOf(env, db).(block := NULL, anchor := NULL), ViewOf(env, db)]
  }

  lemma StartRefines(env: Env, db: Db)
    ensures var s := Cache(EMPTY_LAYER, Base(db));
            Consistent(env, s) && Refines(env, s, StartViews(env, db))
  {
    var b, v := Base(db), ViewOf(env, db);
    assert forall o :: CoinAt(b, o) == Lookup(v.coins, o);
    assert forall rt :: AnchorAt(env, b, rt) == Lookup(v.anchors, rt);
    assert Refines(env, b, [v]);
    NewCacheShows(env, b);
    NewViews(env, b, [v]);
    assert StartViews(env, db) == [v.(block := NULL, anchor := NULL)] + [v];
  }

  // ---------- a used nullifier stays used ----------

  /** Every view at level `depth` or above, counted from the database, has the nullifier. */
  predicate UsedFrom(vs: seq<View>, depth: nat, nf: Hash) {
    forall i :: 0 <= i < |vs| && |vs| - 1 - i >= depth ==> nf in vs[i].nullifiers
  }

  predicate Unmarks(op: Op, nf: Hash) {
    op.Mark? && !op.spent && op.tx.shieldedVersion && nf in NullifiersOf(op.tx.spends)
  }

  lemma UsedStep(env: Env, vs: seq<View>, depth: nat, nf: Hash, op: Op)
    requires |vs| >= 2 && UsedFrom(vs, depth, nf) && !Unmarks(op, nf)
    requires |vs| - 1 >= depth
    ensures UsedFrom(FlatStep(env, vs, op), depth, nf)
  {
    var gs := FlatStep(env, vs, op);
    AskedAlike(vs, op);
    hide Asked, BlocksOf, RootsOf, Filled;
    assert forall i :: 0 <= i < |vs| ==> Asked(vs, op)[i].nullifiers == vs[i].nullifiers;
    forall i | 0 <= i < |gs| && |gs| - 1 - i >= depth
      ensures nf in gs[i].nullifiers
    {
    }
  }

  /** The run never drops the layer at level `depth` and never unmarks the nullifier. */
  predicate KeepsUsed(env: Env, vs: seq<View>, ops: seq<Op>, depth: nat, nf: Hash)
    decreases |ops|
  {
    && |vs| >= 2 && |vs| - 1 >= depth
    && (ops == [] || (!Unmarks(ops[0], nf) && KeepsUsed(env, FlatStep(env, vs, ops[0]), ops[1..], depth, nf)))
  }

  lemma {:induction false} UsedRun(env: Env, vs: seq<View>, ops: seq<Op>, depth: nat, nf: Hash)
    requires UsedFrom(vs, depth, nf) && KeepsUsed(env, vs, ops, depth, nf)
    ensures var gs := FlatRun(env, vs, ops).0; UsedFrom(gs, depth, nf) && |gs| - 1 >= depth
    decreases |ops|
  {
    hide FlatStep, FlatAnswer;
    if ops != [] {
      UsedStep(env, vs, depth, nf, ops[0]);
      UsedRun(env, FlatStep(env, vs, ops[0]), ops[1..], depth, nf);
    }
  }

  /**
    A nullifier marked in one layer makes the stack reject every shielded transaction that spends
    it, after any run above that layer that does not unmark it.
   */
  lemma UsedNullifierRejected(env: Env, s: Stack, vs: seq<View>, ops: seq<Op>, depth: nat, nf: Hash, tx: Tx)
    requires s.Cache? && Consistent(env, s) && Refines(env, s, vs) && Contracts(env, vs, ops)
    requires UsedFrom(vs, depth, nf) && KeepsUsed(env, vs, ops, depth, nf)
    requires tx.shieldedVersion && nf in NullifiersOf(tx.spends)
    ensures var r := Run(env, s, ops);
            r.Some? && !HaveShieldedRequirements(env, r.value.0, tx).1
  {
    RunRefines(env, s, vs, ops);
    UsedRun(env, vs, ops, depth, nf);
    var t, gs := Run(env, s, ops).value.0, FlatRun(env, vs, ops).0;
    var d :| d in tx.spends && d.nullifier == nf;
    HaveShieldedReads(env, t, tx.spends);
    assert nf in gs[0].nullifiers;
    assert !SpendAllowed(env, t, d);
  }

  // ---------- pushing and popping an anchor ----------

  lemma {:induction false} FilledTwice(hs: seq<Hash>)
    requires hs != []
    ensures Filled(Filled(hs)) == Filled(hs)
  {
    if |hs| > 1 && hs[0] == NULL {
      FilledTwice(hs[1..]);
      assert Filled(hs)[1..] == Filled(hs[1..]);
      FilledBest(hs, 0);
      assert hs[0..] == hs && Filled(hs)[0..] == Filled(hs);
    }
  }

  lemma FilledAlready(vs: seq<View>)
    requires vs != [] && Filled(RootsOf(vs)) == RootsOf(vs)
    ensures RootsFilled(vs) == vs
  {
    assert forall i :: 0 <= i < |vs| ==> RootsOf(vs)[i] == vs[i].anchor;
  }

  /** Popping back to the previous root undoes the push of an unknown one, but for what was remembered. */
  lemma FlatPushThenPop(env: Env, vs: seq<View>, tree: Tree)
    requires |vs| >= 2 && env.root(tree) !in vs[0].anchors && env.root(tree) != NULL
    ensures var gs := FlatStep(env, vs, Push(tree));
            && |gs| == |vs| && PopAllowed(Resolved(gs), BestRootOf(vs))
            && FlatStep(env, gs, Pop(BestRootOf(vs))) == RootsFilled(vs)
  {
    var filled, rt, back := RootsFilled(vs), env.root(tree), BestRootOf(vs);
    AskedAlike(vs, Push(tree));
    FilledTwice(RootsOf(vs));
    FilledAlready(filled);
    var gs := FlatStep(env, vs, Push(tree));
    assert filled[0].anchor == RootsOf(filled)[0] == back;
    assert [filled[0]] + filled[1..] == filled;
    if back != rt {
      assert RootsOf(gs)[0] == rt;
      FilledAlready(gs);
      assert filled[0].anchors[rt := tree] - {rt} == filled[0].anchors;
    } else {
      FilledBest(RootsOf(vs), 0);
      assert RootsOf(vs)[0..] == RootsOf(vs) && RootsOf(gs)[0..] == RootsOf(gs);
    }
  }

  lemma RunTwo(env: Env, s: Stack, a: Op, b: Op)
    requires s.Cache? && Step(env, s, a).Some? && Step(env, s, a).value.0.Cache?
    requires var t := Step(env, s, a).value.0; Step(env, t, b).Some? && Step(env, t, b).value.0.Cache?
    ensures var r := Run(env, s, [a, b]);
            r.Some? && r.value.0 == Step(env, Step(env, s, a).value.0, b).value.0
  {
    hide Step;
    var t := Step(env, s, a).value.0;
    var u := Step(env, t, b).value.0;
    assert [a, b][1..] == [b] && [b][1..] == [];
    assert Run(env, u, []) == Some((u, []));
    assert Run(env, t, [b]).Some? && Run(env, t, [b]).value.0 == u;
  }

  /** Every layer of two lists of hashes answers with the same one. */
  predicate BestAlike(hs: seq<Hash>, ks: seq<Hash>) {
    |hs| == |ks| && forall k :: 0 <= k < |hs| ==> Best(hs[k..]) == Best(ks[k..])
  }

  lemma BestAlikeRest(hs: seq<Hash>, ks: seq<Hash>)
    requires BestAlike(hs, ks) && |hs| > 0
    ensures Best(hs) == Best(ks) && BestAlike(hs[1..], ks[1..])
  {
    assert hs[0..] == hs && ks[0..] == ks;
    forall k | 0 <= k < |hs| - 1 ensures Best(hs[1..][k..]) == Best(ks[1..][k..]) {
      assert hs[1..][k..] == hs[k + 1..] && ks[1..][k..] == ks[k + 1..];
    }
  }

  /** Two stacks whose views differ in nothing but remembered hashes answer alike at every depth. */
  lemma {:induction false} AlikeSame(env: Env, s: Stack, t: Stack, vs: seq<View>, ws: seq<View>)
    requires RefinesData(env, s, vs) && RefinesData(env, t, ws) && DataAlike(vs, ws)
    requires BestAlike(Blocks(s), Blocks(t)) && BestAlike(Roots(s), Roots(t))
    ensures Same(env, s, t)
  {
    BestIs(s);
    BestIs(t);
    BestAlikeRest(Blocks(s), Blocks(t));
    BestAlikeRest(Roots(s), Roots(t));
    assert s.Cache? ==> Blocks(s)[1..] == Blocks(s.below) && Roots(s)[1..] == Roots(s.below);
    assert t.Cache? ==> Blocks(t)[1..] == Blocks(t.below) && Roots(t)[1..] == Roots(t.below);
    hide BestAlike, Blocks, Roots, Best;
    assert vs[0] == ws[0].(block := vs[0].block, anchor := vs[0].anchor);
    if s.Cache? { AlikeSame(env, s.below, t.below, vs[1..], ws[1..]); }
  }

  /**
    Popping back to the previous root undoes a push of a root that was not known before: the stack
    answers at every depth what it answered before both.
   */
  lemma PushThenPop(env: Env, s: Stack, vs: seq<View>, tree: Tree)
    requires s.Cache? && Consistent(env, s) && Refines(env, s, vs)
    requires env.root(tree) !in vs[0].anchors && env.root(tree) != NULL
    ensures var r := Run(env, s, [Push(tree), Pop(BestAnchor(s))]);
            r.Some? && Same(env, s, r.value.0)
  {
    BestIs(s);
    RefinesDepth(env, s, vs);
    StepRefines(env, s, vs, Push(tree));
    FlatPushThenPop(env, vs, tree);
    AskedAlike(vs, Push(tree));
    var back := BestAnchor(s);
    hide Step, FlatStep, FlatAnswer, RefinesData, BlocksOf, RootsOf;
    var t, gs := Step(env, s, Push(tree)).value.0, FlatStep(env, vs, Push(tree));
    StepRefines(env, t, gs, Pop(back));
    RunTwo(env, s, Push(tree), Pop(back));
    var u, filled := Step(env, t, Pop(back)).value.0, RootsFilled(vs);
    forall k: nat | k < |Roots(s)| ensures Best(Roots(s)[k..]) == Best(Roots(u)[k..]) { FilledBest(Roots(s), k); }
    AlikeSame(env, s, u, vs, filled);
  }

  // ---------- the two best hashes ----------

  /** The best block that is handed down is the one that was answered. */
  predicate KeepsBlock(s: Stack)
    requires s.Cache?
  {
    || s.top.block != NULL
    || (s.below.Cache? && (s.below.top.block == NULL || s.below.top.block == BestBlock(s.below.below)))
  }

  /**
    `Flush` and `Sync` hand the local best-block hash down even when it is null, which the database
    refuses. The top then keeps its best block exactly when that hash is set, or the view below falls
    back to the same hash.
   */
  lemma FlushBestBlock(env: Env, s: Stack)
    requires s.Cache? && (s.below.Base? ==> s.top.block != NULL)
    ensures BestBlock(Flush(env, s)) == BestBlock(s) <==> KeepsBlock(s)
    ensures BestBlock(Sync(env, s)) == BestBlock(s) <==> KeepsBlock(s)
  {
    forall t | t == Flush(env, s) || t == Sync(env, s) ensures BestBlock(t) == BestBlock(s) <==> KeepsBlock(s) {
      assert t.top.block == s.top.block;
      assert s.below.Cache? ==> t.below.top.block == s.top.block && t.below.below == s.below.below;
    }
  }

  predicate KeepsAnchor(s: Stack)
    requires s.Cache?
  {
    || s.top.anchor != NULL
    || s.below.Base? || s.below.top.anchor == NULL || s.below.top.anchor == BestAnchor(s.below.below)
  }

  /** The same for the best anchor, but the database keeps its own over a null one. */
  lemma FlushBestAnchor(env: Env, s: Stack)
    requires s.Cache?
    ensures BestAnchor(Flush(env, s)) == BestAnchor(s) <==> KeepsAnchor(s)
    ensures BestAnchor(Sync(env, s)) == BestAnchor(s) <==> KeepsAnchor(s)
  {
    forall t | t == Flush(env, s) || t == Sync(env, s) ensures BestAnchor(t) == BestAnchor(s) <==> KeepsAnchor(s) {
      assert t.top.anchor == s.top.anchor;
      assert s.below.Cache? ==> t.below.top.anchor == s.top.anchor && t.below.below == s.below.below;
      assert s.below.Base? && s.top.anchor == NULL ==> t.below.db.anchor == s.below.db.anchor;
    }
  }

  /** Three layers over any database: flushing a cache that was only created forgets the block set under it. */
  lemma FlushForgetsBlock(env: Env, db: Db, h: Hash)
    requires h != NULL && h != db.block
    ensures var s := Cache(EMPTY_LAYER, Base(db));
            var before := Run(env, s, [WriteBlock(h), NewCache]);
            && before.Some? && before.value.0.Cache? && BestBlock(before.value.0) == h
            && BestBlock(Flush(env, before.value.0)) == BestBlock(Sync(env, before.value.0)) == db.block
  {
    var s := Cache(EMPTY_LAYER, Base(db));
    var s1 := SetBestBlock(s, h);
    var s2 := Cache(EMPTY_LAYER, s1);
    RunTwo(env, s, WriteBlock(h), NewCache);
    assert BestBlock(s1) == h && BestBlock(s2) == h;
    forall t | t == Flush(env, s2) || t == Sync(env, s2) ensures BestBlock(t) == db.block {
      assert t.top.block == NULL && t.below.top.block == NULL && t.below.below == Base(db);
      assert BestBlock(t.below) == db.block;
    }
  }

  /** The same for a pushed anchor. */
  lemma FlushForgetsAnchor(env: Env, db: Db, tree: Tree)
    requires env.root(tree) != NULL && env.root(tree) != db.anchor
    ensures var s := Cache(EMPTY_LAYER, Base(db));
            var before := Run(env, s, [Push(tree), NewCache]);
            && before.Some? && before.value.0.Cache? && BestAnchor(before.value.0) == env.root(tree)
            && BestAnchor(Flush(env, before.value.0)) == BestAnchor(Sync(env, before.value.0)) == db.anchor
  {
    var s := Cache(EMPTY_LAYER, Base(db));
    assert GetBestAnchor(Base(db)) == (Base(db), db.anchor);
    var s1 := PushAnchor(env, s, tree);
    assert s1.Cache? && s1.top.anchor == env.root(tree) && s1.below == Base(db);
    var s2 := Cache(EMPTY_LAYER, s1);
    RunTwo(env, s, Push(tree), NewCache);
    assert BestAnchor(s1) == env.root(tree) && BestAnchor(s2) == env.root(tree);
    forall t | t == Flush(env, s2) || t == Sync(env, s2) ensures BestAnchor(t) == db.anchor {
      assert t.top.anchor == NULL && t.below.top.anchor == NULL && t.below.below == Base(db);
      assert BestAnchor(t.below) == db.anchor;
    }
  }

  // ---------- popping the empty root ----------

  /**
    The database answers for the empty root whatever was written, so popping the empty root off
    and flushing brings it back.
   */
  lemma PoppedEmptyRootReturns(env: Env, rt: Hash)
    requires env.Ok() && rt != NULL && rt != env.EmptyRoot()
    ensures var s := Cache(EMPTY_LAYER.(block := 1), Base(Db(map[], 1, env.EmptyRoot(), map[], {})));
            var popped := PopAnchor(env, s, rt);
            && popped.Done? && popped.stack.Cache?
            && AnchorAt(env, popped.stack, env.EmptyRoot()).None?
            && AnchorAt(env, Flush(env, popped.stack), env.EmptyRoot()).Some?
  {
    var b := Base(Db(map[], 1, env.EmptyRoot(), map[], {}));
    var s := Cache(EMPTY_LAYER.(block := 1), b);
    assert GetBestAnchor(b) == (b, env.EmptyRoot());
    var s1 := Cache(EMPTY_LAYER.(block := 1, anchor := env.EmptyRoot()), b);
    assert GetBestAnchor(s) == (s1, env.EmptyRoot());
    assert GetAnchor(env, b, env.EmptyRoot()) == (b, Some([]));
    var s2 := GetAnchor(env, s1, env.EmptyRoot()).0;
    assert s2.top.anchors == map[env.EmptyRoot() := AnchorEntry(true, [], false)];
    var t := PopAnchor(env, s, rt).stack;
    assert t.top.anchors[env.EmptyRoot()] == AnchorEntry(false, [], true);
    assert AnchorAt(env, Flush(env, t).below, env.EmptyRoot()) == Some([]);
  }

  /** Of the roots popped and flushed to the database, exactly the empty one comes back. */
  lemma PoppedReturns(env: Env, s: Stack, rt: Hash)
    requires s.Cache? && s.below.Base? && Consistent(env, s) && s.top.block != NULL
    requires AnchorAt(env, s, BestAnchor(s)).Some? && rt != BestAnchor(s)
    ensures var popped := PopAnchor(env, s, rt);
            var gone := BestAnchor(s);
            && popped.Done? && popped.stack.Cache?
            && AnchorAt(env, popped.stack, gone).None?
            && (AnchorAt(env, Flush(env, popped.stack), gone).Some? <==> gone == env.EmptyRoot())
  {
    GetBestAnchorReads(env, s);
    var (s1, gone) := GetBestAnchor(s);
    assert AnchorAt(env, s1, gone) == AnchorAt(env, s, gone);
    GetAnchorReads(env, s1, gone);
    var t := PopAnchor(env, s, rt).stack;
    assert t.below.Base? && t.top.anchors[gone].isDirty && !t.top.anchors[gone].entered;
    assert gone !in WriteAnchors(env, t.below.db.anchors, t.top.anchors);
  }
}
