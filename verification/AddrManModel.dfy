/**
  The address manager (src/addrman.cpp, src/addrman_impl.h) as a value and one function per
  operation. A table slot that holds -1 in the source is absent from the map here. Hashes are
  parameters; so are the clock and the random draws.
 */
module AddrManModel {

  import opened Collections

  type Addr = nat      // an address with its port
  type Host = nat      // an address without a port
  type Network = nat

  const BUCKETS_PER_ADDRESS := 8
  const HORIZON := 30 * 24 * 3600
  const RETRIES := 3
  const MAX_FAILURES := 10
  const MIN_FAIL := 7 * 24 * 3600
  const REPLACEMENT := 4 * 3600
  const MAX_COLLISIONS := 10
  const TEST_WINDOW := 40 * 60
  const HOUR := 3600
  const DAY := 24 * 3600

  datatype Slot = Slot(bucket: nat, pos: nat)

  /**
    Table sizes, and what the secret key and the network groups make of an address. Every bucket
    and position is a hash reduced modulo the size of its table.
   */
  datatype Config = Config(newBuckets: nat, triedBuckets: nat, bucketSize: nat,
                           triedBucket: Addr -> nat,
                           newBucket: (Addr, Host) -> nat,
                           position: (Addr, bool, nat) -> nat,
                           host: Addr -> Host,
                           network: Addr -> Network,
                           netClass: Addr -> Network,
                           routable: Addr -> bool,
                           valid: Addr -> bool)
  {
    ghost predicate Ok() {
      && newBuckets > 0
      && (forall a :: triedBucket(a) < triedBuckets)
      && (forall a, h :: newBucket(a, h) < newBuckets)
      && (forall a, isNew, b :: position(a, isNew, b) < bucketSize)
      && (forall a :: routable(a) ==> valid(a))
    }

    function TriedSlot(a: Addr): Slot {
      Slot(triedBucket(a), position(a, false, triedBucket(a)))
    }

    function NewSlotIn(a: Addr, bucket: nat): Slot {
      Slot(bucket, position(a, true, bucket))
    }

    function NewSlot(a: Addr, source: Host): Slot {
      NewSlotIn(a, newBucket(a, source))
    }
  }

  /** What a peer tells about an address (`CAddress`). */
  datatype Claim = Claim(addr: Addr, time: int, services: set<nat>)

  datatype Info = Info(addr: Addr, source: Host, time: int, services: set<nat>,
                       lastTry: int, lastCountAttempt: int, lastSuccess: int, attempts: int,
                       refCount: int, inTried: bool, randomPos: int)

  datatype Counts = Counts(nNew: int, nTried: int)

  datatype Man = Man(idCount: int,
                     info: map<int, Info>,
                     addrs: map<Addr, int>,
                     random: seq<int>,
                     nTried: int,
                     tried: map<Slot, int>,
                     nNew: int,
                     news: map<Slot, int>,
                     lastGood: int,
                     collisions: set<int>,
                     net: map<Network, Counts>)

  const EMPTY := Man(0, map[], map[], [], 0, map[], 0, map[], 1, {}, map[])

  function CountAt(net: map<Network, Counts>, n: Network): Counts {
    if n in net then net[n] else Counts(0, 0)
  }

  function Bump(net: map<Network, Counts>, n: Network, dNew: int, dTried: int): map<Network, Counts> {
    net[n := Counts(CountAt(net, n).nNew + dNew, CountAt(net, n).nTried + dTried)]
  }

  function SetInfo(s: Man, id: int, i: Info): Man {
    s.(info := s.info[id := i])
  }

  function IsTerrible(i: Info, now: int): bool {
    if now - i.lastTry <= 60 then false
    else if i.time > now + 600 then true
    else if now - i.time > HORIZON then true
    else if i.lastSuccess == 0 && i.attempts >= RETRIES then true
    else now - i.lastSuccess > MIN_FAIL && i.attempts >= MAX_FAILURES
  }

  function Find(s: Man, a: Addr): Option<int> {
    if a in s.addrs && s.addrs[a] in s.info then Some(s.addrs[a]) else None
  }

  // ---------- internal operations ----------

  function Create(cfg: Config, s: Man, claim: Claim, source: Host): Man {
    var id := s.idCount;
    var i := Info(claim.addr, source, claim.time, claim.services, 0, 0, 0, 0, 0, false, |s.random|);
    s.(idCount := id + 1,
       info := s.info[id := i],
       addrs := s.addrs[claim.addr := id],
       random := s.random + [id],
       nNew := s.nNew + 1,
       net := Bump(s.net, cfg.network(claim.addr), 1, 0))
  }

  function SwapRandom(s: Man, p: int, q: int): (t: Man)
    ensures |t.random| == |s.random|
  {
    if p == q || !(0 <= p < |s.random| && 0 <= q < |s.random|) then s
    else
      var a, b := s.random[p], s.random[q];
      if a !in s.info || b !in s.info then s
      else
        var info1 := s.info[a := s.info[a].(randomPos := q)];
        s.(info := info1[b := info1[b].(randomPos := p)],
           random := s.random[p := b][q := a])
  }

  function Delete(cfg: Config, s: Man, id: int): Man
    requires id in s.info && s.random != []
  {
    var i := s.info[id];
    var s1 := SwapRandom(s, i.randomPos, |s.random| - 1);
    s1.(net := Bump(s1.net, cfg.network(i.addr), -1, 0),
        random := s1.random[..|s1.random| - 1],
        addrs := s1.addrs - {i.addr},
        info := s1.info - {id},
        nNew := s1.nNew - 1)
  }

  /** One reference fewer: the slot is emptied and the count of its entry goes down. */
  function DropRef(s: Man, slot: Slot): Man
    requires slot in s.news && s.news[slot] in s.info
  {
    var id := s.news[slot];
    SetInfo(s, id, s.info[id].(refCount := s.info[id].refCount - 1)).(news := s.news - {slot})
  }

  function ClearNew(cfg: Config, s: Man, slot: Slot): Man {
    if slot !in s.news || s.news[slot] !in s.info || s.random == [] then s
    else
      var id := s.news[slot];
      var s1 := DropRef(s, slot);
      if s1.info[id].refCount == 0 then Delete(cfg, s1, id) else s1
  }

  /** The loop of `MakeTried` over the new buckets, from the `n`th after `start` on. */
  function ClearRefs(cfg: Config, s: Man, id: int, start: nat, n: nat): Man
    requires cfg.newBuckets > 0 && id in s.info
    decreases cfg.newBuckets - n
  {
    if n >= cfg.newBuckets then s
    else
      var bucket := (start + n) % cfg.newBuckets;
      var slot := cfg.NewSlotIn(s.info[id].addr, bucket);
      if slot in s.news && s.news[slot] == id then
        var s1 := DropRef(s, slot);
        if s1.info[id].refCount == 0 then s1 else ClearRefs(cfg, s1, id, start, n + 1)
      else ClearRefs(cfg, s, id, start, n + 1)
  }

  /** One reference more. */
  function AddRef(s: Man, id: int, slot: Slot): Man
    requires id in s.info
  {
    SetInfo(s, id, s.info[id].(refCount := s.info[id].refCount + 1)).(news := s.news[slot := id])
  }

  /** The counters take one entry more, or one fewer, for new. */
  function CountNew(cfg: Config, s: Man, id: int, d: int): Man
    requires id in s.info
  {
    s.(nNew := s.nNew + d, net := Bump(s.net, cfg.network(s.info[id].addr), d, 0))
  }

  /** The entry at `slot` leaves the tried table. */
  function LeaveTried(cfg: Config, s: Man, slot: Slot): Man
    requires slot in s.tried && s.tried[slot] in s.info
  {
    var id := s.tried[slot];
    SetInfo(s, id, s.info[id].(inTried := false))
    .(tried := s.tried - {slot}, nTried := s.nTried - 1, net := Bump(s.net, cfg.network(s.info[id].addr), 0, -1))
  }

  /** The entry takes its slot in the tried table. */
  function EnterTried(cfg: Config, s: Man, id: int): Man
    requires id in s.info
  {
    SetInfo(s, id, s.info[id].(inTried := true))
    .(tried := s.tried[cfg.TriedSlot(s.info[id].addr) := id], nTried := s.nTried + 1,
      net := Bump(s.net, cfg.network(s.info[id].addr), 0, 1))
  }

  /** An entry without references gets one, at `slot`, and is counted as new. */
  function EnterNew(cfg: Config, s: Man, id: int, slot: Slot): Man
    requires id in s.info
  {
    CountNew(cfg, SetInfo(s, id, s.info[id].(refCount := 1)).(news := s.news[slot := id]), id, 1)
  }

  /** The tried entry at `slot` goes back to the new table, displacing whatever is in its place there. */
  function Evict(cfg: Config, s: Man, slot: Slot): Man {
    if slot !in s.tried || s.tried[slot] !in s.info then s
    else
      var id := s.tried[slot];
      var home := cfg.NewSlot(s.info[id].addr, s.info[id].source);
      var s1 := ClearNew(cfg, LeaveTried(cfg, s, slot), home);
      if id !in s1.info then s1 else EnterNew(cfg, s1, id, home)
  }

  /** `MakeTried`: out of the new table, make space in the tried table, into the tried table. */
  function MakeTried(cfg: Config, s: Man, id: int): Man
    requires cfg.newBuckets > 0 && id in s.info
  {
    var i := s.info[id];
    var s1 := ClearRefs(cfg, s, id, cfg.newBucket(i.addr, i.source), 0);
    if id !in s1.info then s1
    else
      var s2 := Evict(cfg, CountNew(cfg, s1, id, -1), cfg.TriedSlot(i.addr));
      if id !in s2.info then s2 else EnterTried(cfg, s2, id)
  }

  // ---------- public operations ----------

  function Max(a: int, b: int): int { if a < b then b else a }

  /** The refresh of a known entry at the start of `AddSingle`. */
  function Refresh(i: Info, claim: Claim, penalty: int, now: int): Info {
    var interval := if now - claim.time < DAY then HOUR else DAY;
    var i1 := if i.time < claim.time - interval - penalty then i.(time := Max(0, claim.time - penalty)) else i;
    i1.(services := i1.services + claim.services)
  }

  /** The last part of `AddSingle`: place entry `id` in the bucket that `source` gives it. */
  function Place(cfg: Config, s: Man, id: int, source: Host, now: int): (Man, bool)
    requires id in s.info
  {
    var slot := cfg.NewSlot(s.info[id].addr, source);
    var free := slot !in s.news;
    if slot in s.news && s.news[slot] == id then (s, false)
    else
      var insert := free
                 || (s.news[slot] in s.info
                     && (IsTerrible(s.info[s.news[slot]], now)
                         || (s.info[s.news[slot]].refCount > 1 && s.info[id].refCount == 0)));
      if insert then
        var s1 := ClearNew(cfg, s, slot);
        if id !in s1.info then (s1, true) else (AddRef(s1, id, slot), true)
      else if s.info[id].refCount == 0 && s.random != [] then (Delete(cfg, s, id), false)
      else (s, false)
  }

  /** `AddSingle`; `lucky` says whether the random test for another reference passed. */
  function AddSingle(cfg: Config, s: Man, claim: Claim, source: Host, penalty: int, now: int, lucky: bool): (Man, bool) {
    if !cfg.routable(claim.addr) then (s, false)
    else
      var due := if cfg.host(claim.addr) == source then 0 else penalty;
      var found := Find(s, claim.addr);
      if found.Some? then
        var id := found.value;
        var i := Refresh(s.info[id], claim, due, now);
        var s1 := SetInfo(s, id, i);
        if claim.time <= i.time || i.inTried || i.refCount == BUCKETS_PER_ADDRESS || (i.refCount > 0 && !lucky)
        then (s1, false)
        else Place(cfg, s1, id, source, now)
      else
        var id := s.idCount;
        var s1 := Create(cfg, s, claim, source);
        var s2 := SetInfo(s1, id, s1.info[id].(time := Max(0, s1.info[id].time - due)));
        Place(cfg, s2, id, source, now)
  }

  /** `Add_`: the first `n` claims in turn, and whether any was added. */
  function AddAll(cfg: Config, s: Man, claims: seq<Claim>, source: Host, penalty: int, now: seq<int>, lucky: seq<bool>,
                  n: nat): (Man, bool)
    requires n <= |claims| == |now| == |lucky|
  {
    if n == 0 then (s, false)
    else
      var (s1, any) := AddAll(cfg, s, claims, source, penalty, now, lucky, n - 1);
      var (s2, added) := AddSingle(cfg, s1, claims[n - 1], source, penalty, now[n - 1], lucky[n - 1]);
      (s2, any || added)
  }

  /** `Good_`: the entry works; move it to the tried table, or remember the collision. */
  function Good(cfg: Config, s: Man, a: Addr, testBeforeEvict: bool, time: int): (Man, bool)
    requires cfg.newBuckets > 0
  {
    var s0 := s.(lastGood := time);
    var found := Find(s0, a);
    if found.None? then (s0, false)
    else
      var id := found.value;
      var i := s0.info[id].(lastSuccess := time, lastTry := time, attempts := 0);
      var s1 := SetInfo(s0, id, i);
      if i.inTried || i.refCount <= 0 then (s1, false)
      else if testBeforeEvict && cfg.TriedSlot(i.addr) in s1.tried then
        (if |s1.collisions| < MAX_COLLISIONS then s1.(collisions := s1.collisions + {id}) else s1, false)
      else (MakeTried(cfg, s1, id), true)
  }

  function Attempt(s: Man, a: Addr, countFailure: bool, time: int): Man {
    var found := Find(s, a);
    if found.None? then s
    else
      var i := s.info[found.value].(lastTry := time);
      SetInfo(s, found.value,
              if countFailure && i.lastCountAttempt < s.lastGood
              then i.(lastCountAttempt := time, attempts := i.attempts + 1) else i)
  }

  function Connected(s: Man, a: Addr, time: int): Man {
    var found := Find(s, a);
    if found.None? then s
    else
      var i := s.info[found.value];
      SetInfo(s, found.value, if time - i.time > 20 * 60 then i.(time := time) else i)
  }

  function SetServices(s: Man, a: Addr, services: set<nat>): Man {
    var found := Find(s, a);
    if found.None? then s else SetInfo(s, found.value, s.info[found.value].(services := services))
  }

  /** One turn of `ResolveCollisions_`: the new state, and whether the collision is dropped. */
  function ResolveOne(cfg: Config, s: Man, id: int, now: int): (Man, bool)
    requires cfg.newBuckets > 0
  {
    if id !in s.info then (s, true)
    else
      var i := s.info[id];
      var slot := cfg.TriedSlot(i.addr);
      if !cfg.valid(i.addr) then (s, true)
      else if slot in s.tried && s.tried[slot] in s.info then
        var o := s.info[s.tried[slot]];
        if now - o.lastSuccess < REPLACEMENT then (s, true)
        else if now - o.lastTry < REPLACEMENT then
          if now - o.lastTry > 60 then (Good(cfg, s, i.addr, false, now).0, true) else (s, false)
        else if now - i.lastSuccess > TEST_WINDOW then (Good(cfg, s, i.addr, false, now).0, true)
        else (s, false)
      else (Good(cfg, s, i.addr, false, now).0, true)
  }

  /** `ResolveCollisions_` over the ids in `order`, with the clock read at each turn. */
  function ResolveCollisions(cfg: Config, s: Man, order: seq<int>, clock: seq<int>): Man
    requires cfg.newBuckets > 0 && |order| == |clock|
    decreases |order|
  {
    if order == [] then s
    else
      var (s1, erase) := ResolveOne(cfg, s, order[0], clock[0]);
      ResolveCollisions(cfg, if erase then s1.(collisions := s1.collisions - {order[0]}) else s1, order[1..], clock[1..])
  }

  /** What `mapInfo[id]` builds when the id is not there. */
  const BLANK := Info(0, 0, 0, {}, 0, 0, 0, 0, 0, false, -1)

  /**
    `SelectTriedCollision_` when the draw falls on `pick`: the state after it, and what it returns.
    Looking up an id that is not there would add a blank entry, as the source's map does.
   */
  function SelectTriedCollision(cfg: Config, s: Man, pick: int): (Man, Option<Info>) {
    if pick !in s.info then (s.(collisions := s.collisions - {pick}), None)
    else
      var slot := cfg.TriedSlot(s.info[pick].addr);
      var idOld := if slot in s.tried then s.tried[slot] else -1;
      if idOld in s.info then (s, Some(s.info[idOld])) else (SetInfo(s, idOld, BLANK), Some(BLANK))
  }

  // ---------- sampling addresses ----------

  /** How many addresses `GetAddr_` may return out of `total`; zero means no limit. */
  function Limit(total: nat, maxAddresses: nat, maxPct: nat): nat {
    var n := if maxPct != 0 then maxPct * total / 100 else total;
    if maxAddresses != 0 && maxAddresses < n then maxAddresses else n
  }

  predicate Eligible(cfg: Config, i: Info, network: Option<Network>, now: int) {
    (network.Some? ==> cfg.netClass(i.addr) == network.value) && !IsTerrible(i, now)
  }

  /**
    The loop of `GetAddr_` from position `n` on: draw `picks[n]` among the positions not visited
    yet, swap it here, and keep the entry if it is eligible.
   */
  function GetAddrFrom(cfg: Config, s: Man, n: nat, limit: nat, picks: seq<nat>, network: Option<Network>, now: int,
                       got: seq<Addr>): (Man, seq<Addr>)
    decreases |picks| - n
  {
    if n >= |picks| || n >= |s.random| || |got| >= limit then (s, got)
    else
      var s1 := SwapRandom(s, n, picks[n]);
      if n >= |s1.random| || s1.random[n] !in s1.info then (s1, got)
      else
        var i := s1.info[s1.random[n]];
        GetAddrFrom(cfg, s1, n + 1, limit, picks, network, now, if Eligible(cfg, i, network, now) then got + [i.addr] else got)
  }
}
