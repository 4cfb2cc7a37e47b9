/**
  The address manager as an object. Each method does to the state what the function of the same
  name in `AddrManModel` says; the assertions of the source appear as assertions that hold.
 */
module AddrManClass {

  import opened Collections
  import opened AddrManModel
  import M = AddrManModel
  import opened AddrManInv
  import O = AddrManOps
  import R = AddrManRuns

  class AddrMan {
    const cfg: Config

    var idCount: int
    var mapInfo: map<int, Info>
    var mapAddr: map<Addr, int>
    var vRandom: seq<int>
    var nTried: int
    var vvTried: map<Slot, int>
    var nNew: int
    var vvNew: map<Slot, int>
    var lastGood: int
    var triedCollisions: set<int>
    var networkCounts: map<Network, Counts>

    constructor (cfg: Config)
      requires cfg.Ok()
      ensures this.cfg == cfg && State() == EMPTY && Valid(cfg, State())
    {
      this.cfg := cfg;
      idCount, mapInfo, mapAddr, vRandom := 0, map[], map[], [];
      nTried, vvTried, nNew, vvNew := 0, map[], 0, map[];
      lastGood, triedCollisions, networkCounts := 1, {}, map[];
      new;
      R.EmptyValid(cfg);
    }

    ghost function State(): Man
      reads this
    {
      Man(idCount, mapInfo, mapAddr, vRandom, nTried, vvTried, nNew, vvNew, lastGood, triedCollisions, networkCounts)
    }

    method Find(a: Addr) returns (id: Option<int>)
      ensures id == M.Find(State(), a)
    {
      if a !in mapAddr { return None; }
      if mapAddr[a] in mapInfo { return Some(mapAddr[a]); }
      return None;
    }

    method Bump(a: Addr, dNew: int, dTried: int)
      modifies this`networkCounts
      ensures networkCounts == M.Bump(old(networkCounts), cfg.network(a), dNew, dTried)
    {
      var n := cfg.network(a);
      var c := if n in networkCounts then networkCounts[n] else Counts(0, 0);
      networkCounts := networkCounts[n := Counts(c.nNew + dNew, c.nTried + dTried)];
    }

    method Create(claim: Claim, source: Host) returns (id: int)
      modifies this
      ensures State() == M.Create(cfg, old(State()), claim, source) && id == old(idCount)
    {
      hide M.Bump;
      id := idCount;
      var i := Info(claim.addr, source, claim.time, claim.services, 0, 0, 0, 0, 0, false, -1);
      i := i.(randomPos := |vRandom|);
      idCount, mapInfo, mapAddr, vRandom := id + 1, mapInfo[id := i], mapAddr[claim.addr := id], vRandom + [id];
      nNew := nNew + 1;
      Bump(claim.addr, 1, 0);
    }

    method SwapRandom(p: int, q: int)
      requires RandomOk(mapInfo, vRandom) && 0 <= p < |vRandom| && 0 <= q < |vRandom|
      modifies this`mapInfo, this`vRandom
      ensures State() == M.SwapRandom(old(State()), p, q)
    {
      if p == q { return; }
      var a, b := vRandom[p], vRandom[q];
      assert a in mapInfo && b in mapInfo;
      mapInfo := mapInfo[a := mapInfo[a].(randomPos := q)];
      mapInfo := mapInfo[b := mapInfo[b].(randomPos := p)];
      vRandom := vRandom[p := b][q := a];
    }

    method Delete(id: int)
      requires id in mapInfo && !mapInfo[id].inTried && mapInfo[id].refCount == 0
      requires RandomOk(mapInfo, vRandom)
      modifies this
      ensures old(vRandom) != [] && State() == M.Delete(cfg, old(State()), id)
    {
      var a, p := mapInfo[id].addr, mapInfo[id].randomPos;
      assert 0 <= p < |vRandom|;
      hide RandomOk, M.SwapRandom, M.Bump;
      SwapRandom(p, |vRandom| - 1);
      RemoveLast(id, a);
    }

    method RemoveLast(id: int, a: Addr)
      requires vRandom != []
      modifies this
      ensures State() == old(State()).(net := M.Bump(old(networkCounts), cfg.network(a), -1, 0),
                                       random := old(vRandom)[..|old(vRandom)| - 1],
                                       addrs := old(mapAddr) - {a}, info := old(mapInfo) - {id}, nNew := old(nNew) - 1)
    {
      hide M.Bump;
      Bump(a, -1, 0);
      vRandom := vRandom[..|vRandom| - 1];
      mapAddr := mapAddr - {a};
      mapInfo := mapInfo - {id};
      nNew := nNew - 1;
    }

    method ClearNew(slot: Slot, ghost loose: set<int>, ghost limbo: set<int>)
      requires Inv(cfg, State(), loose, limbo)
      modifies this
      ensures State() == M.ClearNew(cfg, old(State()), slot)
    {
      hide IndexOk, TriedOk, NewsOk, CountsOk, EntriesOk;
      if slot in vvNew {
        R.HolderKnown(cfg, State(), slot, loose, limbo);
        var id := vvNew[slot];
        assert mapInfo[id].refCount > 0;
        DropRefKeeps(cfg, State(), slot, loose, limbo);
        ghost var s1 := DropRef(State(), slot);
        mapInfo := mapInfo[id := mapInfo[id].(refCount := mapInfo[id].refCount - 1)];
        vvNew := vvNew - {slot};
        assert State() == s1;
        if mapInfo[id].refCount == 0 { Delete(id); }
      }
    }

    /** The loop of `MakeTried` over the new buckets. */
    method ClearRefs(id: int)
      requires cfg.newBuckets > 0 && id in mapInfo
      modifies this`mapInfo, this`vvNew
      ensures id in mapInfo
      ensures State() == M.ClearRefs(cfg, old(State()), id, cfg.newBucket(old(mapInfo)[id].addr, old(mapInfo)[id].source), 0)
    {
      var start := cfg.newBucket(mapInfo[id].addr, mapInfo[id].source);
      ghost var s := State();
      var n := 0;
      while n < cfg.newBuckets
        invariant 0 <= n <= cfg.newBuckets && id in mapInfo
        invariant M.ClearRefs(cfg, s, id, start, 0) == M.ClearRefs(cfg, State(), id, start, n)
      {
        var bucket := (start + n) % cfg.newBuckets;
        var slot := cfg.NewSlotIn(mapInfo[id].addr, bucket);
        if slot in vvNew && vvNew[slot] == id {
          vvNew := vvNew - {slot};
          mapInfo := mapInfo[id := mapInfo[id].(refCount := mapInfo[id].refCount - 1)];
          if mapInfo[id].refCount == 0 { return; }
        }
        n := n + 1;
      }
    }

    method LeaveTried(slot: Slot)
      requires slot in vvTried && vvTried[slot] in mapInfo
      modifies this
      ensures State() == M.LeaveTried(cfg, old(State()), slot)
    {
      var id := vvTried[slot];
      var o := mapInfo[id];
      mapInfo := mapInfo[id := o.(inTried := false)];
      vvTried := vvTried - {slot};
      nTried := nTried - 1;
      Bump(o.addr, 0, -1);
    }

    method EnterNew(id: int, slot: Slot)
      requires id in mapInfo
      modifies this
      ensures State() == M.EnterNew(cfg, old(State()), id, slot)
    {
      mapInfo := mapInfo[id := mapInfo[id].(refCount := 1)];
      vvNew := vvNew[slot := id];
      nNew := nNew + 1;
      Bump(mapInfo[id].addr, 1, 0);
    }

    /** The part of `MakeTried` that makes space; `id` is the entry the space is for. */
    method Evict(slot: Slot, ghost id: int)
      requires Inv(cfg, State(), {id}, {id}) && cfg.Ok()
      requires id in mapInfo && !mapInfo[id].inTried && mapInfo[id].refCount == 0
      modifies this
      ensures State() == M.Evict(cfg, old(State()), slot)
    {
      hide IndexOk, RandomOk, TriedOk, NewsOk, CountsOk, Inv, M.ClearNew, M.EnterNew;
      if slot in vvTried {
        O.LeaveTriedKeeps(cfg, State(), slot, {id});
        var idEvict := vvTried[slot];
        assert idEvict in mapInfo;
        var home := cfg.NewSlot(mapInfo[idEvict].addr, mapInfo[idEvict].source);
        LeaveTried(slot);
        assert {id} + {idEvict} == {id, idEvict};
        R.EvictRest(cfg, State(), id, idEvict, home);
        ClearNew(home, {id, idEvict}, {id, idEvict});
        EnterNew(idEvict, home);
      }
    }

    /** `MakeTried`: its three assertions hold. */
    method MakeTried(id: int)
      requires cfg.Ok() && Inv(cfg, State(), {}, {})
      requires id in mapInfo && !mapInfo[id].inTried && mapInfo[id].lastSuccess > 0
      modifies this
      ensures State() == M.MakeTried(cfg, old(State()), id)
    {
      hide IndexOk, RandomOk, TriedOk, NewsOk, CountsOk, Inv, M.ClearRefs, M.Evict;
      ghost var s := State();
      var a := mapInfo[id].addr;
      O.ClearRefsKeeps(cfg, s, id);
      ClearRefs(id);
      ghost var s1 := State();
      nNew := nNew - 1;
      Bump(a, -1, 0);
      assert mapInfo[id].refCount == 0;
      assert State() == CountNew(cfg, s1, id, -1);
      O.LeaveNewKeeps(cfg, s1, id);
      var slot := cfg.TriedSlot(a);
      R.EvictKeeps(cfg, State(), id, slot);
      ghost var s2 := State();
      Evict(slot, id);
      assert O.Untouched(s2, State(), id);
      assert slot !in vvTried;
      vvTried := vvTried[slot := id];
      nTried := nTried + 1;
      mapInfo := mapInfo[id := mapInfo[id].(inTried := true)];
      Bump(a, 0, 1);
    }

    method Place(id: int, source: Host, now: int) returns (inserted: bool)
      requires cfg.Ok() && Inv(cfg, State(), {id}, {})
      requires id in mapInfo && !mapInfo[id].inTried && mapInfo[id].refCount < BUCKETS_PER_ADDRESS
      modifies this
      ensures (State(), inserted) == M.Place(cfg, old(State()), id, source, now)
    {
      hide IndexOk, TriedOk, NewsOk, CountsOk, M.Delete, M.ClearNew, M.IsTerrible;
      ghost var s := State();
      var slot := cfg.NewSlot(mapInfo[id].addr, source);
      R.HolderKnown(cfg, s, slot, {id}, {});
      hide Inv;
      inserted := slot !in vvNew;
      if slot in vvNew && vvNew[slot] == id { return; }
      if !inserted {
        var existing := mapInfo[vvNew[slot]];
        if IsTerrible(existing, now) || (existing.refCount > 1 && mapInfo[id].refCount == 0) {
          inserted := true;
        }
      }
      if inserted {
        R.PlaceInserts(cfg, s, id, slot);
        ClearNew(slot, {id}, {});
        mapInfo := mapInfo[id := mapInfo[id].(refCount := mapInfo[id].refCount + 1)];
        vvNew := vvNew[slot := id];
      } else if mapInfo[id].refCount == 0 {
        Delete(id);
      }
    }

    /** The part of `AddSingle` for an address that is known; says whether to go on. */
    method RefreshKnown(id: int, claim: Claim, due: int, now: int, lucky: bool) returns (goOn: bool)
      requires id in mapInfo
      modifies this`mapInfo
      ensures State() == SetInfo(old(State()), id, Refresh(old(mapInfo)[id], claim, due, now))
      ensures goOn == !(claim.time <= mapInfo[id].time || mapInfo[id].inTried
                        || mapInfo[id].refCount == BUCKETS_PER_ADDRESS || (mapInfo[id].refCount > 0 && !lucky))
    {
      var i := mapInfo[id];
      var interval := if now - claim.time < DAY then HOUR else DAY;
      if i.time < claim.time - interval - due { i := i.(time := Max(0, claim.time - due)); }
      i := i.(services := i.services + claim.services);
      mapInfo := mapInfo[id := i];
      if claim.time <= i.time { return false; }
      if i.inTried { return false; }
      if i.refCount == BUCKETS_PER_ADDRESS { return false; }
      if i.refCount > 0 && !lucky { return false; }
      return true;
    }

    method AddSingle(claim: Claim, source: Host, penalty: int, now: int, lucky: bool) returns (added: bool)
      requires cfg.Ok() && Valid(cfg, State())
      modifies this
      ensures (State(), added) == M.AddSingle(cfg, old(State()), claim, source, penalty, now, lucky)
      ensures Valid(cfg, State())
    {
      hide Inv, M.AddSingle;
      R.AddSingleKeeps(cfg, State(), claim, source, penalty, now, lucky);
      if !cfg.routable(claim.addr) { return false; }
      added := AddRoutable(claim, source, penalty, now, lucky);
    }

    /** `AddSingle` after its first test. */
    method AddRoutable(claim: Claim, source: Host, penalty: int, now: int, lucky: bool) returns (added: bool)
      requires cfg.Ok() && Valid(cfg, State()) && cfg.routable(claim.addr)
      modifies this
      ensures (State(), added) == M.AddSingle(cfg, old(State()), claim, source, penalty, now, lucky)
    {
      hide IndexOk, RandomOk, TriedOk, NewsOk, CountsOk, CollisionsOk, Inv, M.Place, M.Refresh, M.Create;
      ghost var s := State();
      R.IdsBelow(cfg, s, {}, {});
      R.FoundIs(s, claim.addr);
      var due := penalty;
      if cfg.host(claim.addr) == source { due := 0; }
      var found := Find(claim.addr);
      var id: int;
      if found.Some? {
        id := found.value;
        R.AddKnownKeeps(cfg, s, id, claim, due, now, source);
        var goOn := RefreshKnown(id, claim, due, now, lucky);
        if !goOn { return false; }
        R.RefCountAtMost(cfg, State(), id);
        R.LoosenInv(cfg, State(), id);
      } else {
        id := CreateUnknown(claim, source, due);
      }
      added := Place(id, source, now);
    }

    method CreateUnknown(claim: Claim, source: Host, due: int) returns (id: int)
      requires Inv(cfg, State(), {}, {}) && claim.addr !in mapAddr
      modifies this
      ensures id == old(idCount)
      ensures var s1 := M.Create(cfg, old(State()), claim, source);
              id in s1.info && State() == SetInfo(s1, id, s1.info[id].(time := Max(0, s1.info[id].time - due)))
      ensures id in mapInfo && !mapInfo[id].inTried && mapInfo[id].refCount == 0
      ensures Inv(cfg, State(), {id}, {})
    {
      hide IndexOk, RandomOk, TriedOk, NewsOk, CountsOk, Inv;
      CreateKeeps(cfg, State(), claim, source);
      id := Create(claim, source);
      var i := mapInfo[id].(time := Max(0, mapInfo[id].time - due));
      TouchKeeps(cfg, State(), id, i, {id}, {});
      mapInfo := mapInfo[id := i];
    }

    method Add(claims: seq<Claim>, source: Host, penalty: int, now: seq<int>, lucky: seq<bool>) returns (any: bool)
      requires cfg.Ok() && Valid(cfg, State()) && |now| == |lucky| == |claims|
      modifies this
      ensures Valid(cfg, State())
      ensures (State(), any) == M.AddAll(cfg, old(State()), claims, source, penalty, now, lucky, |claims|)
    {
      hide Valid, M.AddSingle;
      any := false;
      for i := 0 to |claims|
        invariant Valid(cfg, State())
        invariant (State(), any) == M.AddAll(cfg, old(State()), claims, source, penalty, now, lucky, i)
      {
        var added := AddSingle(claims[i], source, penalty, now[i], lucky[i]);
        any := any || added;
      }
    }

    method Good(a: Addr, testBeforeEvict: bool, time: int) returns (moved: bool)
      requires cfg.Ok() && Valid(cfg, State()) && time > 0
      modifies this
      ensures (State(), moved) == M.Good(cfg, old(State()), a, testBeforeEvict, time)
      ensures Valid(cfg, State())
    {
      hide IndexOk, RandomOk, TriedOk, NewsOk, CountsOk, CollisionsOk, Inv, M.MakeTried;
      ghost var s := State();
      R.GoodKeeps(cfg, s, a, testBeforeEvict, time);
      R.IdsBelow(cfg, s, {}, {});
      R.FoundIs(s, a);
      R.LastGoodFree(cfg, s, time);
      lastGood := time;
      var found := Find(a);
      if found.None? { return false; }
      var id := found.value;
      R.GoodTouch(cfg, State(), id, time);
      mapInfo := mapInfo[id := mapInfo[id].(lastSuccess := time, lastTry := time, attempts := 0)];
      if mapInfo[id].inTried { return false; }
      if mapInfo[id].refCount <= 0 { return false; }
      var slot := cfg.TriedSlot(mapInfo[id].addr);
      if testBeforeEvict && slot in vvTried {
        if |triedCollisions| < MAX_COLLISIONS { triedCollisions := triedCollisions + {id}; }
        return false;
      }
      MakeTried(id);
      return true;
    }

    method Attempt(a: Addr, countFailure: bool, time: int)
      requires Valid(cfg, State()) && time >= 0
      modifies this`mapInfo
      ensures State() == M.Attempt(old(State()), a, countFailure, time) && Valid(cfg, State())
    {
      R.AttemptKeeps(cfg, State(), a, countFailure, time);
      hide Valid;
      var found := Find(a);
      if found.None? { return; }
      var i := mapInfo[found.value].(lastTry := time);
      if countFailure && i.lastCountAttempt < lastGood {
        i := i.(lastCountAttempt := time, attempts := i.attempts + 1);
      }
      mapInfo := mapInfo[found.value := i];
    }

    method Connected(a: Addr, time: int)
      requires Valid(cfg, State())
      modifies this`mapInfo
      ensures State() == M.Connected(old(State()), a, time) && Valid(cfg, State())
    {
      R.ConnectedKeeps(cfg, State(), a, time);
      hide Valid;
      var found := Find(a);
      if found.None? { return; }
      var i := mapInfo[found.value];
      if time - i.time > 20 * 60 { i := i.(time := time); }
      mapInfo := mapInfo[found.value := i];
    }

    method SetServices(a: Addr, services: set<nat>)
      requires Valid(cfg, State())
      modifies this`mapInfo
      ensures State() == M.SetServices(old(State()), a, services) && Valid(cfg, State())
    {
      R.SetServicesKeeps(cfg, State(), a, services);
      hide Valid;
      var found := Find(a);
      if found.None? { return; }
      mapInfo := mapInfo[found.value := mapInfo[found.value].(services := services)];
    }

    method ResolveOne(id: int, now: int) returns (erase: bool)
      requires cfg.Ok() && Valid(cfg, State()) && now > 0 && id in triedCollisions
      modifies this
      ensures (State(), erase) == M.ResolveOne(cfg, old(State()), id, now)
      ensures Valid(cfg, State()) && triedCollisions == old(triedCollisions)
    {
      R.ResolveOneKeeps(cfg, State(), id, now);
      if id !in mapInfo { return true; }
      R.CollisionIsReal(cfg, State(), id);
      hide Valid, M.Good;
      var i := mapInfo[id];
      if !cfg.valid(i.addr) { return true; }
      var o := mapInfo[vvTried[cfg.TriedSlot(i.addr)]];
      if now - o.lastSuccess < REPLACEMENT {
        return true;
      } else if now - o.lastTry < REPLACEMENT {
        if now - o.lastTry > 60 {
          var moved := Good(i.addr, false, now);
          return true;
        }
      } else if now - i.lastSuccess > TEST_WINDOW {
        var moved := Good(i.addr, false, now);
        return true;
      }
      return false;
    }

    /** `ResolveCollisions_` in any order of the pending ids. */
    method ResolveCollisions(order: seq<int>, clock: seq<int>)
      requires cfg.Ok() && Valid(cfg, State()) && |order| == |clock|
      requires forall k :: 0 <= k < |order| ==> order[k] in triedCollisions && clock[k] > 0
      requires forall j, k :: 0 <= j < k < |order| ==> order[j] != order[k]
      modifies this
      ensures State() == M.ResolveCollisions(cfg, old(State()), order, clock)
      ensures Valid(cfg, State())
    {
      hide Valid, M.ResolveOne;
      ghost var s := State();
      var k := 0;
      assert order[0..] == order && clock[0..] == clock;
      while k < |order|
        invariant 0 <= k <= |order| && Valid(cfg, State())
        invariant forall j :: k <= j < |order| ==> order[j] in triedCollisions
        invariant M.ResolveCollisions(cfg, s, order, clock) == M.ResolveCollisions(cfg, State(), order[k..], clock[k..])
      {
        assert order[k..][1..] == order[k + 1..] && clock[k..][1..] == clock[k + 1..];
        var erase := ResolveOne(order[k], clock[k]);
        if erase {
          R.ForgetCollision(cfg, State(), order[k]);
          triedCollisions := triedCollisions - {order[k]};
        }
        k := k + 1;
      }
    }

    /** Returns the tried entry in the way of a pending one; `pick` is where the random draw fell. */
    method SelectTriedCollision(pick: int) returns (r: Option<Info>)
      requires Valid(cfg, State()) && pick in triedCollisions
      modifies this`triedCollisions
      ensures (State(), r) == M.SelectTriedCollision(cfg, old(State()), pick)
      ensures Valid(cfg, State())
    {
      R.SelectTriedCollisionKeeps(cfg, State(), pick);
      if pick !in mapInfo {
        triedCollisions := triedCollisions - {pick};
        return None;
      }
      R.CollisionIsReal(cfg, State(), pick);
      hide Valid;
      return Some(mapInfo[vvTried[cfg.TriedSlot(mapInfo[pick].addr)]]);
    }

    method GetAddr(maxAddresses: nat, maxPct: nat, picks: seq<nat>, network: Option<Network>, now: int)
      returns (addresses: seq<Addr>)
      requires Valid(cfg, State()) && R.GoodPicks(picks, |vRandom|)
      modifies this`mapInfo, this`vRandom
      ensures (State(), addresses) ==
              M.GetAddrFrom(cfg, old(State()), 0, Limit(|old(vRandom)|, maxAddresses, maxPct), picks, network, now, [])
      ensures Valid(cfg, State())
    {
      var limit := |vRandom|;
      if maxPct != 0 { limit := maxPct * limit / 100; }
      if maxAddresses != 0 && maxAddresses < limit { limit := maxAddresses; }
      R.GetAddrKeeps(cfg, State(), limit, picks, network, now);
      R.HolderKnown(cfg, State(), Slot(0, 0), {}, {});
      hide Valid;
      addresses := Sample(limit, picks, network, now);
    }

    /** The loop of `GetAddr_`. */
    method Sample(limit: nat, picks: seq<nat>, network: Option<Network>, now: int) returns (addresses: seq<Addr>)
      requires RandomOk(mapInfo, vRandom) && R.GoodPicks(picks, |vRandom|)
      modifies this`mapInfo, this`vRandom
      ensures (State(), addresses) == M.GetAddrFrom(cfg, old(State()), 0, limit, picks, network, now, [])
    {
      hide M.IsTerrible, M.SwapRandom, RandomOk;
      ghost var s := State();
      addresses := [];
      var n := 0;
      while n < |vRandom|
        invariant 0 <= n <= |vRandom| == |picks| && RandomOk(mapInfo, vRandom)
        invariant M.GetAddrFrom(cfg, s, 0, limit, picks, network, now, []) ==
                  M.GetAddrFrom(cfg, State(), n, limit, picks, network, now, addresses)
        decreases |picks| - n
      {
        if |addresses| >= limit { break; }
        var i := Draw(n, picks[n]);
        n := n + 1;
        if network.Some? && cfg.netClass(i.addr) != network.value { continue; }
        if IsTerrible(i, now) { continue; }
        addresses := addresses + [i.addr];
      }
    }

    /** Swap the drawn place to the front of the places left, and look at the entry there. */
    method Draw(n: nat, pick: nat) returns (i: Info)
      requires RandomOk(mapInfo, vRandom) && n <= pick < |vRandom|
      modifies this`mapInfo, this`vRandom
      ensures State() == M.SwapRandom(old(State()), n, pick)
      ensures RandomOk(mapInfo, vRandom) && |vRandom| == |old(vRandom)|
      ensures vRandom[n] in mapInfo && i == mapInfo[vRandom[n]]
    {
      if n != pick { SwapRandomOk(mapInfo, vRandom, n, pick); }
      SwapRandom(n, pick);
      i := mapInfo[vRandom[n]];
    }
  }
}
