/**
  The layered view of the unspent transaction outputs (src/coins.h, src/coins.cpp,
  src/txdb.cpp, src/sapling/sapling_txdb.cpp), as values: a database at the bottom and any
  number of caches on top of it. Each function below is one operation on the topmost cache
  and returns the whole stack after it, including the entries that reading pulls up into the
  caches below.
 */
module CoinsModel {

  import opened Collections

  // ---------- data ----------

  type Byte = b: int | 0 <= b < 256
  type Script = seq<Byte>

  /** A 256-bit hash; zero is the null hash. */
  type Hash = nat

  /** A Sapling commitment tree, as the list of its note commitments. */
  type Tree = seq<Hash>

  const NULL: Hash := 0
  const OP_RETURN: Byte := 0x6a
  const MAX_SCRIPT_SIZE := 10000

  datatype OutPoint = OutPoint(hash: Hash, n: nat)

  datatype TxOut = TxOut(value: int, script: Script)

  datatype Coin = Coin(out: TxOut, height: nat, coinbase: bool) {
    predicate IsSpent() { out.value == -1 }

    predicate IsUnspendable() {
      (|out.script| > 0 && out.script[0] == OP_RETURN) || |out.script| > MAX_SCRIPT_SIZE
    }
  }

  /** What `Coin::Clear` leaves behind, and what the empty constructor builds. */
  const CLEARED := Coin(TxOut(-1, []), 0, false)

  datatype CoinEntry = CoinEntry(coin: Coin, isDirty: bool, isFresh: bool)
  datatype AnchorEntry = AnchorEntry(entered: bool, tree: Tree, isDirty: bool)
  datatype NullifierEntry = NullifierEntry(entered: bool, isDirty: bool)

  /** The fields of one `CCoinsViewCache`. */
  datatype Layer = Layer(coins: map<OutPoint, CoinEntry>,
                         block: Hash,
                         anchor: Hash,
                         anchors: map<Hash, AnchorEntry>,
                         nullifiers: map<Hash, NullifierEntry>,
                         usage: int)

  /** The database. Some base views hold spent coins, so this one may as well. */
  datatype Db = Db(coins: map<OutPoint, Coin>,
                   block: Hash,
                   anchor: Hash,
                   anchors: map<Hash, Tree>,
                   nullifiers: set<Hash>)

  datatype Stack = Base(db: Db) | Cache(top: Layer, below: Stack)

  /** Code outside the caches: heap bytes behind a script or a tree, and the root of a tree. */
  datatype Env = Env(scriptUsage: Script -> nat, treeUsage: Tree -> nat, root: Tree -> Hash) {
    function EmptyRoot(): Hash { root([]) }

    predicate Ok() { scriptUsage([]) == 0 && EmptyRoot() != NULL }
  }

  const EMPTY_LAYER := Layer(map[], NULL, NULL, map[], map[], 0)

  datatype Spend = Spend(nullifier: Hash, anchor: Hash)

  datatype Tx = Tx(id: Hash, coinbase: bool, inputs: seq<OutPoint>, outputs: seq<TxOut>,
                   shieldedVersion: bool, spends: seq<Spend>, shieldedOutputs: nat)
  {
    predicate HasShieldedPayload() { shieldedVersion && (spends != [] || shieldedOutputs > 0) }
  }

  // ---------- what a stack answers, without touching it ----------

  function Unspent(coin: Coin): Option<Coin> {
    if coin.IsSpent() then None else Some(coin)
  }

  function Shown(e: AnchorEntry): Option<Tree> {
    if e.entered then Some(e.tree) else None
  }

  function CoinAt(s: Stack, o: OutPoint): Option<Coin> {
    match s
    case Base(db) => if o in db.coins then Unspent(db.coins[o]) else None
    case Cache(top, below) => if o in top.coins then Unspent(top.coins[o].coin) else CoinAt(below, o)
  }

  function AnchorAt(env: Env, s: Stack, rt: Hash): Option<Tree> {
    match s
    case Base(db) => if rt == env.EmptyRoot() then Some([]) else Lookup(db.anchors, rt)
    case Cache(top, below) => if rt in top.anchors then Shown(top.anchors[rt]) else AnchorAt(env, below, rt)
  }

  predicate NullifierAt(s: Stack, nf: Hash) {
    match s
    case Base(db) => nf in db.nullifiers
    case Cache(top, below) => if nf in top.nullifiers then top.nullifiers[nf].entered else NullifierAt(below, nf)
  }

  function BestBlock(s: Stack): Hash {
    match s
    case Base(db) => db.block
    case Cache(top, below) => if top.block == NULL then BestBlock(below) else top.block
  }

  function BestAnchor(s: Stack): Hash {
    match s
    case Base(db) => db.anchor
    case Cache(top, below) => if top.anchor == NULL then BestAnchor(below) else top.anchor
  }

  // ---------- reading, which fills the caches on the way ----------

  /** `FetchCoin`: the stack after it, and the entry it points at. */
  function FetchCoin(env: Env, s: Stack, o: OutPoint): (r: (Stack, Option<CoinEntry>))
    requires s.Cache?
    ensures r.0.Cache?
    ensures r.1 == Lookup(r.0.top.coins, o)
    decreases s, 0
  {
    if o in s.top.coins then (s, Some(s.top.coins[o]))
    else
      var (below, found) := GetCoin(env, s.below, o);
      if found.None? then (Cache(s.top, below), None)
      else
        var entry := CoinEntry(found.value, false, found.value.IsSpent());
        (Cache(s.top.(coins := s.top.coins[o := entry],
                      usage := s.top.usage + env.scriptUsage(found.value.out.script)), below),
         Some(entry))
  }

  /** `GetCoin`: a cache never answers with a spent coin, a database answers what it holds. */
  function GetCoin(env: Env, s: Stack, o: OutPoint): (Stack, Option<Coin>)
    decreases s, 1
  {
    match s
    case Base(db) => (s, Lookup(db.coins, o))
    case Cache(_, _) =>
      var (s', entry) := FetchCoin(env, s, o);
      (s', if entry.Some? then Unspent(entry.value.coin) else None)
  }

  function GetAnchor(env: Env, s: Stack, rt: Hash): (r: (Stack, Option<Tree>))
    ensures s.Cache? == r.0.Cache?
    ensures s.Cache? && r.1.Some? ==> rt in r.0.top.anchors && r.1 == Shown(r.0.top.anchors[rt])
  {
    match s
    case Base(_) => (s, AnchorAt(env, s, rt))
    case Cache(top, below) =>
      if rt in top.anchors then (s, Shown(top.anchors[rt]))
      else
        var (below', found) := GetAnchor(env, below, rt);
        if found.None? then (Cache(top, below'), None)
        else
          (Cache(top.(anchors := top.anchors[rt := AnchorEntry(true, found.value, false)],
                      usage := top.usage + env.treeUsage(found.value)), below'),
           found)
  }

  function GetNullifier(s: Stack, nf: Hash): (Stack, bool) {
    match s
    case Base(db) => (s, nf in db.nullifiers)
    case Cache(top, below) =>
      if nf in top.nullifiers then (s, top.nullifiers[nf].entered)
      else
        var (below', spent) := GetNullifier(below, nf);
        (Cache(top.(nullifiers := top.nullifiers[nf := NullifierEntry(spent, false)]), below'), spent)
  }

  function GetBestBlock(s: Stack): (Stack, Hash) {
    match s
    case Base(db) => (s, db.block)
    case Cache(top, below) =>
      if top.block != NULL then (s, top.block)
      else
        var (below', h) := GetBestBlock(below);
        (Cache(top.(block := h), below'), h)
  }

  function GetBestAnchor(s: Stack): (r: (Stack, Hash))
    ensures s.Cache? == r.0.Cache?
  {
    match s
    case Base(db) => (s, db.anchor)
    case Cache(top, below) =>
      if top.anchor != NULL then (s, top.anchor)
      else
        var (below', h) := GetBestAnchor(below);
        (Cache(top.(anchor := h), below'), h)
  }

  /** `HaveInputs` over the inputs that are left. */
  function HaveInputs(env: Env, s: Stack, inputs: seq<OutPoint>): (Stack, bool)
    requires s.Cache?
    decreases |inputs|
  {
    if inputs == [] then (s, true)
    else
      var (s', entry) := FetchCoin(env, s, inputs[0]);
      if entry.None? || entry.value.coin.IsSpent() then (s', false)
      else HaveInputs(env, s', inputs[1..])
  }

  /** `HaveShieldedRequirements` over the spends that are left. */
  function HaveShielded(env: Env, s: Stack, spends: seq<Spend>): (Stack, bool)
    decreases |spends|
  {
    if spends == [] then (s, true)
    else
      var (s1, spent) := GetNullifier(s, spends[0].nullifier);
      if spent then (s1, false)
      else
        var (s2, tree) := GetAnchor(env, s1, spends[0].anchor);
        if tree.None? then (s2, false) else HaveShielded(env, s2, spends[1..])
  }

  function HaveShieldedRequirements(env: Env, s: Stack, tx: Tx): (Stack, bool) {
    if !tx.HasShieldedPayload() then (s, true) else HaveShielded(env, s, tx.spends)
  }

  // ---------- editing the top cache ----------

  datatype Outcome = Done(stack: Stack) | Threw(partial: Stack)

  /**
    `AddCoin` of a coin that is not spent. The throw happens after the usage counter was
    lowered, so the stack it leaves is part of the outcome.
   */
  function AddCoin(env: Env, s: Stack, o: OutPoint, coin: Coin, possibleOverwrite: bool): Outcome
    requires s.Cache?
  {
    if coin.IsUnspendable() then Done(s)
    else
      var top := s.top;
      var prior := if o in top.coins then top.coins[o] else CoinEntry(CLEARED, false, false);
      var lowered := if o in top.coins then top.usage - env.scriptUsage(prior.coin.out.script) else top.usage;
      if !possibleOverwrite && !prior.coin.IsSpent() then
        Threw(Cache(top.(usage := lowered), s.below))
      else
        var isFresh := !possibleOverwrite && !prior.isDirty;
        Done(Cache(top.(coins := top.coins[o := CoinEntry(coin, true, prior.isFresh || isFresh)],
                        usage := lowered + env.scriptUsage(coin.out.script)), s.below))
  }

  /** `SpendCoin`: the stack, what it returns, and the coin it moves out. */
  function SpendCoin(env: Env, s: Stack, o: OutPoint): (Stack, bool, Coin)
    requires s.Cache?
  {
    var (s1, entry) := FetchCoin(env, s, o);
    if entry.None? then (s1, false, CLEARED)
    else
      var top, e := s1.top, entry.value;
      var lowered := top.usage - env.scriptUsage(e.coin.out.script);
      if e.isFresh then (Cache(top.(coins := top.coins - {o}, usage := lowered), s1.below), true, e.coin)
      else
        (Cache(top.(coins := top.coins[o := CoinEntry(CLEARED, true, false)], usage := lowered), s1.below),
         true, e.coin)
  }

  function Uncache(env: Env, s: Stack, o: OutPoint): Stack
    requires s.Cache?
  {
    if o in s.top.coins && !s.top.coins[o].isDirty && !s.top.coins[o].isFresh then
      Cache(s.top.(coins := s.top.coins - {o},
                   usage := s.top.usage - env.scriptUsage(s.top.coins[o].coin.out.script)), s.below)
    else s
  }

  function SetBestBlock(s: Stack, h: Hash): Stack
    requires s.Cache?
  {
    Cache(s.top.(block := h), s.below)
  }

  function PushAnchor(env: Env, s: Stack, tree: Tree): Stack
    requires s.Cache?
  {
    var (s1, current) := GetBestAnchor(s);
    var rt := env.root(tree);
    if current == rt then s1
    else
      var top := s1.top;
      var lowered := if rt in top.anchors then top.usage - env.treeUsage(top.anchors[rt].tree) else top.usage;
      Cache(top.(anchors := top.anchors[rt := AnchorEntry(true, tree, true)],
                 anchor := rt,
                 usage := lowered + env.treeUsage(tree)), s1.below)
  }

  /** `PopAnchor`; it throws where the source asserts that the current root is known. */
  function PopAnchor(env: Env, s: Stack, rt: Hash): Outcome
    requires s.Cache?
  {
    var (s1, current) := GetBestAnchor(s);
    if current == rt then Done(s1)
    else
      var (s2, tree) := GetAnchor(env, s1, current);
      if tree.None? then Threw(s2)
      else
        Done(Cache(s2.top.(anchors := s2.top.anchors[current := s2.top.anchors[current].(entered := false, isDirty := true)],
                           anchor := rt), s2.below))
  }

  function MarkNullifiers(marks: map<Hash, NullifierEntry>, spends: seq<Spend>, spent: bool): map<Hash, NullifierEntry>
    decreases |spends|
  {
    if spends == [] then marks
    else MarkNullifiers(marks[spends[0].nullifier := NullifierEntry(spent, true)], spends[1..], spent)
  }

  function SetNullifiers(s: Stack, tx: Tx, spent: bool): Stack
    requires s.Cache?
  {
    if !tx.shieldedVersion then s
    else Cache(s.top.(nullifiers := MarkNullifiers(s.top.nullifiers, tx.spends, spent)), s.below)
  }

  // ---------- writing a cache into the view below it ----------

  /** The throw of `BatchWrite`: a FRESH entry meets an unspent one. */
  predicate Misapplied(under: Option<CoinEntry>, e: CoinEntry) {
    e.isDirty && e.isFresh && under.Some? && !under.value.coin.IsSpent()
  }

  /** What a cache holds at an outpoint after the dirty entry `e` was written over `under`. */
  function MergeCoin(under: Option<CoinEntry>, e: CoinEntry): Option<CoinEntry> {
    match under
    case None => if e.isFresh && e.coin.IsSpent() then None else Some(CoinEntry(e.coin, true, e.isFresh))
    case Some(p) => if p.isFresh && e.coin.IsSpent() then None else Some(CoinEntry(e.coin, true, p.isFresh))
  }

  function MergedCoin(under: map<OutPoint, CoinEntry>, over: map<OutPoint, CoinEntry>, o: OutPoint): Option<CoinEntry> {
    if o in over && over[o].isDirty then MergeCoin(Lookup(under, o), over[o]) else Lookup(under, o)
  }

  function MergeCoins(under: map<OutPoint, CoinEntry>, over: map<OutPoint, CoinEntry>): map<OutPoint, CoinEntry> {
    map o | o in under.Keys + over.Keys && MergedCoin(under, over, o).Some? :: MergedCoin(under, over, o).value
  }

  function MergeAnchor(under: Option<AnchorEntry>, e: AnchorEntry): AnchorEntry {
    match under
    case None => AnchorEntry(e.entered, e.tree, true)
    case Some(p) =>
      if p.entered != e.entered || (e.entered && p.tree != e.tree)
      then AnchorEntry(e.entered, if e.entered then e.tree else p.tree, true)
      else p
  }

  function MergeAnchors(under: map<Hash, AnchorEntry>, over: map<Hash, AnchorEntry>): map<Hash, AnchorEntry> {
    under + map rt | rt in over && over[rt].isDirty :: MergeAnchor(Lookup(under, rt), over[rt])
  }

  function MergeNullifier(under: Option<NullifierEntry>, e: NullifierEntry): NullifierEntry {
    match under
    case None => NullifierEntry(e.entered, true)
    case Some(p) => if p.entered != e.entered then NullifierEntry(e.entered, true) else p
  }

  function MergeNullifiers(under: map<Hash, NullifierEntry>, over: map<Hash, NullifierEntry>): map<Hash, NullifierEntry> {
    under + map nf | nf in over && over[nf].isDirty :: MergeNullifier(Lookup(under, nf), over[nf])
  }

  /** The database keeps dirty unspent coins and forgets dirty spent ones. */
  function WriteCoins(db: map<OutPoint, Coin>, over: map<OutPoint, CoinEntry>): map<OutPoint, Coin> {
    var dirty := set o | o in over && over[o].isDirty;
    (db - dirty) + map o | o in dirty && !over[o].coin.IsSpent() :: over[o].coin
  }

  /** The database never writes a tree under the empty root, since it always answers for that root. */
  function WriteAnchors(env: Env, db: map<Hash, Tree>, over: map<Hash, AnchorEntry>): map<Hash, Tree> {
    (db - set rt | rt in over && over[rt].isDirty && !over[rt].entered)
    + map rt | rt in over && over[rt].isDirty && over[rt].entered && rt != env.EmptyRoot() :: over[rt].tree
  }

  function WriteNullifiers(db: set<Hash>, over: map<Hash, NullifierEntry>): set<Hash> {
    (db - set nf | nf in over && over[nf].isDirty) + set nf | nf in over && over[nf].isDirty && over[nf].entered
  }

  function CoinCosts(env: Env, coins: map<OutPoint, CoinEntry>): map<OutPoint, nat> {
    map o | o in coins :: env.scriptUsage(coins[o].coin.out.script)
  }

  function AnchorCosts(env: Env, anchors: map<Hash, AnchorEntry>): map<Hash, nat> {
    map rt | rt in anchors :: env.treeUsage(anchors[rt].tree)
  }

  ghost function CoinUsage(env: Env, coins: map<OutPoint, CoinEntry>): nat {
    Total(CoinCosts(env, coins))
  }

  ghost function AnchorUsage(env: Env, anchors: map<Hash, AnchorEntry>): nat {
    Total(AnchorCosts(env, anchors))
  }

  predicate AnyMisapplied(under: map<OutPoint, CoinEntry>, over: map<OutPoint, CoinEntry>) {
    exists o :: o in over && Misapplied(Lookup(under, o), over[o])
  }

  predicate WouldThrow(s: Stack, over: Layer) {
    match s
    case Base(_) => over.block == NULL
    case Cache(top, _) => AnyMisapplied(top.coins, over.coins)
  }

  /** A cache after the maps of `over` were written into it. */
  ghost function WriteLayer(env: Env, top: Layer, over: Layer): Layer {
    var coins := MergeCoins(top.coins, over.coins);
    var anchors := MergeAnchors(top.anchors, over.anchors);
    Layer(coins, over.block, over.anchor, anchors, MergeNullifiers(top.nullifiers, over.nullifiers),
          top.usage - CoinUsage(env, top.coins) + CoinUsage(env, coins)
          - AnchorUsage(env, top.anchors) + AnchorUsage(env, anchors))
  }

  /** The database after a batch with the maps of `over`. */
  function WriteDb(env: Env, db: Db, over: Layer): Db {
    Db(WriteCoins(db.coins, over.coins),
       over.block,
       if over.anchor == NULL then db.anchor else over.anchor,
       WriteAnchors(env, db.anchors, over.anchors),
       WriteNullifiers(db.nullifiers, over.nullifiers))
  }

  /** `BatchWrite` of the maps of `over` into a view; the usage counter moves with the entries. */
  ghost function BatchWrite(env: Env, s: Stack, over: Layer): Stack {
    match s
    case Base(db) => Base(WriteDb(env, db, over))
    case Cache(top, below) => Cache(WriteLayer(env, top, over), below)
  }

  /** What the caller's maps hold after `BatchWrite`; the database empties both Sapling maps anyway. */
  function Leftover(over: Layer, erase: bool, toDb: bool): Layer {
    over.(coins := if erase then map[] else over.coins,
          anchors := if erase || toDb then map[] else CleanAnchors(over.anchors),
          nullifiers := if erase || toDb then map[] else CleanNullifiers(over.nullifiers))
  }

  function FlushedLayer(top: Layer): Layer {
    Layer(map[], top.block, top.anchor, map[], map[], 0)
  }

  ghost function Flush(env: Env, s: Stack): Stack
    requires s.Cache?
  {
    Cache(FlushedLayer(s.top), BatchWrite(env, s.below, s.top))
  }

  function SpentPart(coins: map<OutPoint, CoinEntry>): map<OutPoint, CoinEntry> {
    map o | o in coins && coins[o].coin.IsSpent() :: coins[o]
  }

  function CleanPart(coins: map<OutPoint, CoinEntry>): map<OutPoint, CoinEntry> {
    map o | o in coins && !coins[o].coin.IsSpent() :: CoinEntry(coins[o].coin, false, false)
  }

  function CleanAnchors(anchors: map<Hash, AnchorEntry>): map<Hash, AnchorEntry> {
    map rt | rt in anchors :: anchors[rt].(isDirty := false)
  }

  function CleanNullifiers(nullifiers: map<Hash, NullifierEntry>): map<Hash, NullifierEntry> {
    map nf | nf in nullifiers :: nullifiers[nf].(isDirty := false)
  }

  /**
    `Sync` drops spent coins and cleans the flags of the others. A cache below only cleans the
    Sapling flags; the database empties both Sapling maps, whatever it was asked to do.
   */
  ghost function SyncedLayer(env: Env, top: Layer, toDb: bool): Layer {
    Layer(CleanPart(top.coins), top.block, top.anchor,
          if toDb then map[] else CleanAnchors(top.anchors),
          if toDb then map[] else CleanNullifiers(top.nullifiers),
          top.usage - CoinUsage(env, SpentPart(top.coins)))
  }

  ghost function Sync(env: Env, s: Stack): Stack
    requires s.Cache?
  {
    Cache(SyncedLayer(env, s.top, s.below.Base?), BatchWrite(env, s.below, s.top))
  }
}
