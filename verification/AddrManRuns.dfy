/** The public operations, and runs of them from the empty address manager. */
module AddrManRuns {

  import opened Collections
  import opened AddrManModel
  import opened AddrManInv
  import opened AddrManOps

  // ---------- moving an entry to the tried table ----------

  /** Whoever holds a new slot is known and has a reference. */
  lemma HolderKnown(cfg: Config, s: Man, slot: Slot, loose: set<int>, limbo: set<int>)
    requires Inv(cfg, s, loose, limbo)
    ensures RandomOk(s.info, s.random)
    ensures slot in s.news ==>
              s.news[slot] in s.info && s.info[s.news[slot]].refCount >= 1 && !s.info[s.news[slot]].inTried && s.random != []
  {
    hide IndexOk, TriedOk, CountsOk;
    if slot in s.news { NewsAfterDrop(cfg, s.info, s.news, slot); }
  }

  /** Clearing a slot changes no address. */
  lemma SameAddrs(cfg: Config, s: Man, slot: Slot)
    requires RandomOk(s.info, s.random) && (slot in s.news ==> s.news[slot] in s.info && s.random != [])
    ensures forall k :: k in ClearNew(cfg, s, slot).info && k in s.info ==>
            ClearNew(cfg, s, slot).info[k].addr == s.info[k].addr
  {
    if slot in s.news {
      var id, t := s.news[slot], ClearNew(cfg, s, slot);
      var s1 := DropRef(s, slot);
      RandomStays(s.info, s1.info, s.random);
      hide RandomOk;
      if s1.info[id].refCount == 0 {
        DeleteFrame(cfg, s1, id);
        forall k | k in t.info && k in s.info ensures t.info[k].addr == s.info[k].addr {
          assert Untouched(s1, t, k);
        }
      }
    }
  }

  /** Everything the callers of `ClearNew` need. */
  lemma ClearNewDoes(cfg: Config, s: Man, slot: Slot, loose: set<int>, limbo: set<int>, keep: int)
    requires Inv(cfg, s, loose, limbo) && limbo <= loose
    requires forall k :: k in loose && k in s.info ==> s.info[k].refCount == 0
    requires slot in s.news ==> s.news[slot] != keep
    ensures var t := ClearNew(cfg, s, slot);
            Inv(cfg, t, loose, limbo) && Shrinks(s, t) && slot !in t.news && Untouched(s, t, keep)
  {
    hide IndexOk, RandomOk, TriedOk, NewsOk, CountsOk, ClearNew;
    HolderKnown(cfg, s, slot, loose, limbo);
    ClearNewFrame(cfg, s, slot);
    ClearNewKeeps(cfg, s, slot, loose, limbo);
    SameAddrs(cfg, s, slot);
  }

  /** The second half of an eviction: the entry gets its one slot in the new table. */
  lemma EnterNewKeeps(cfg: Config, s: Man, id: int, idOld: int, home: Slot)
    requires Inv(cfg, s, {id, idOld}, {id, idOld}) && id != idOld
    requires idOld in s.info && !s.info[idOld].inTried && s.info[idOld].refCount == 0
    requires AtHome(cfg, s.info[idOld].addr, home) && home !in s.news
    ensures var t := EnterNew(cfg, s, idOld, home);
            Inv(cfg, t, {id}, {id}) && Shrinks(s, t) && Untouched(s, t, id)
  {
    hide IndexOk, RandomOk, TriedOk, NewsOk, CountsOk, Inv;
    AddRefKeeps(cfg, s, idOld, home, {id, idOld}, {id, idOld});
    assert {id, idOld} - {idOld} == {id} && {id} + {idOld} == {id, idOld};
    var s1 := AddRef(s, idOld, home);
    JoinNewKeeps(cfg, s1, idOld, {id}, {id});
    assert EnterNew(cfg, s, idOld, home) == CountNew(cfg, s1, idOld, 1);
  }

  lemma EvictKeeps(cfg: Config, s: Man, id: int, slot: Slot)
    requires Inv(cfg, s, {id}, {id}) && cfg.Ok()
    requires id in s.info && !s.info[id].inTried && s.info[id].refCount == 0
    ensures var t := Evict(cfg, s, slot);
            Inv(cfg, t, {id}, {id}) && Shrinks(s.(tried := s.tried - {slot}), t) && Untouched(s, t, id)
  {
    hide IndexOk, RandomOk, TriedOk, NewsOk, CountsOk, Inv, ClearNew, EnterNew;
    if slot !in s.tried {
      assert s.tried - {slot} == s.tried;
    } else {
      LeaveTriedKeeps(cfg, s, slot, {id});
      var idOld := s.tried[slot];
      var home := cfg.NewSlot(s.info[idOld].addr, s.info[idOld].source);
      var s1 := LeaveTried(cfg, s, slot);
      assert {id} + {idOld} == {id, idOld};
      EvictRest(cfg, s1, id, idOld, home);
      var t := Evict(cfg, s, slot);
      assert Untouched(s, s1, id) && Untouched(s1, t, id);
    }
  }

  lemma EvictRest(cfg: Config, s: Man, id: int, idOld: int, home: Slot)
    requires Inv(cfg, s, {id, idOld}, {id, idOld}) && id != idOld
    requires id in s.info && s.info[id].refCount == 0
    requires idOld in s.info && !s.info[idOld].inTried && s.info[idOld].refCount == 0
    requires AtHome(cfg, s.info[idOld].addr, home)
    ensures var s1 := ClearNew(cfg, s, home);
            && idOld in s1.info
            && Inv(cfg, EnterNew(cfg, s1, idOld, home), {id}, {id})
            && Shrinks(s, EnterNew(cfg, s1, idOld, home)) && Untouched(s, EnterNew(cfg, s1, idOld, home), id)
  {
    hide IndexOk, RandomOk, TriedOk, NewsOk, CountsOk, Inv, ClearNew, EnterNew;
    HolderKnown(cfg, s, home, {id, idOld}, {id, idOld});
    ClearNewDoes(cfg, s, home, {id, idOld}, {id, idOld}, id);
    ClearNewDoes(cfg, s, home, {id, idOld}, {id, idOld}, idOld);
    var s1 := ClearNew(cfg, s, home);
    EnterNewKeeps(cfg, s1, id, idOld, home);
    ShrinksTrans(s, s1, EnterNew(cfg, s1, idOld, home));
  }

  /**
    `MakeTried` keeps every index consistent. Its assertions hold: no reference is left after the
    loop, the entry to evict is known, and the slot is free when the entry moves in.
   */
  lemma MakeTriedKeeps(cfg: Config, s: Man, id: int)
    requires cfg.Ok() && Inv(cfg, s, {}, {})
    requires id in s.info && !s.info[id].inTried && s.info[id].lastSuccess > 0
    ensures var t := MakeTried(cfg, s, id);
            && Inv(cfg, t, {}, {}) && Shrinks(s.(tried := s.tried[cfg.TriedSlot(s.info[id].addr) := id]), t)
            && id in t.info && t.info[id].inTried
  {
    hide IndexOk, RandomOk, TriedOk, NewsOk, CountsOk, Inv, ClearRefs, Evict;
    var i := s.info[id];
    ClearRefsKeeps(cfg, s, id);
    var s1 := ClearRefs(cfg, s, id, cfg.newBucket(i.addr, i.source), 0);
    LeaveNewKeeps(cfg, s1, id);
    var s2, slot := CountNew(cfg, s1, id, -1), cfg.TriedSlot(i.addr);
    EvictKeeps(cfg, s2, id, slot);
    var s3 := Evict(cfg, s2, slot);
    JoinTriedKeeps(cfg, s3, id);
    assert s3.tried[slot := id] == s.tried[slot := id];
  }

  // ---------- adding ----------

  /** An entry with a reference need not be called loose. */
  lemma TightenInv(cfg: Config, s: Man, id: int)
    requires Inv(cfg, s, {id}, {}) && (id in s.info && !s.info[id].inTried ==> s.info[id].refCount >= 1)
    ensures Inv(cfg, s, {}, {})
  {
    hide IndexOk, RandomOk, TriedOk, NewsOk, CountsOk;
  }

  lemma LoosenInv(cfg: Config, s: Man, id: int)
    requires Inv(cfg, s, {}, {})
    ensures Inv(cfg, s, {id}, {})
  {
    hide IndexOk, RandomOk, TriedOk, NewsOk, CountsOk;
  }

  lemma PlaceInserts(cfg: Config, s: Man, id: int, slot: Slot)
    requires Inv(cfg, s, {id}, {})
    requires id in s.info && !s.info[id].inTried && s.info[id].refCount < BUCKETS_PER_ADDRESS
    requires AtHome(cfg, s.info[id].addr, slot) && (slot in s.news ==> s.news[slot] != id)
    ensures var s1 := ClearNew(cfg, s, slot);
            id in s1.info && Inv(cfg, AddRef(s1, id, slot), {}, {}) && Shrinks(s, AddRef(s1, id, slot))
  {
    hide IndexOk, RandomOk, TriedOk, NewsOk, CountsOk, Inv, ClearNew;
    var s1 := ClearNew(cfg, s, slot);
    if s.info[id].refCount == 0 {
      ClearNewDoes(cfg, s, slot, {id}, {}, id);
      AddRefKeeps(cfg, s1, id, slot, {id}, {});
      assert {id} - {id} == {};
    } else {
      RefCountPositive(cfg, s, id);
      TightenInv(cfg, s, id);
      ClearNewDoes(cfg, s, slot, {}, {}, id);
      AddRefKeeps(cfg, s1, id, slot, {}, {});
      assert {} - {id} == {};
    }
  }

  lemma RefCountPositive(cfg: Config, s: Man, id: int)
    requires Inv(cfg, s, {id}, {}) && id in s.info
    ensures s.info[id].refCount >= 0
  {
    hide IndexOk, RandomOk, TriedOk, NewsOk, CountsOk;
  }

  lemma PlaceDeletes(cfg: Config, s: Man, id: int)
    requires Inv(cfg, s, {id}, {}) && id in s.info && !s.info[id].inTried && s.info[id].refCount == 0
    ensures s.random != [] && Inv(cfg, Delete(cfg, s, id), {}, {}) && Shrinks(s, Delete(cfg, s, id))
  {
    hide IndexOk, TriedOk, NewsOk, CountsOk, Delete;
    DeleteKeeps(cfg, s, id, {id}, {});
    DeleteFrame(cfg, s, id);
    hide RandomOk, Inv;
    var t := Delete(cfg, s, id);
    assert {id} - {id} == {};
    forall k | k in t.info ensures t.info[k].addr == s.info[k].addr { assert Untouched(s, t, k); }
  }

  /** Placing an entry: it ends up with a reference, or is deleted again. */
  lemma PlaceKeeps(cfg: Config, s: Man, id: int, source: Host, now: int)
    requires cfg.Ok() && Inv(cfg, s, {id}, {})
    requires id in s.info && !s.info[id].inTried && s.info[id].refCount < BUCKETS_PER_ADDRESS
    ensures var t := Place(cfg, s, id, source, now).0; Inv(cfg, t, {}, {}) && Shrinks(s, t)
  {
    hide IndexOk, RandomOk, TriedOk, NewsOk, CountsOk, Inv, Delete, ClearNew, IsTerrible;
    var slot := cfg.NewSlot(s.info[id].addr, source);
    HolderKnown(cfg, s, slot, {id}, {});
    RefCountPositive(cfg, s, id);
    if slot in s.news && s.news[slot] == id {
      TightenInv(cfg, s, id);
    } else if Place(cfg, s, id, source, now).1 {
      PlaceInserts(cfg, s, id, slot);
    } else if s.info[id].refCount == 0 {
      PlaceDeletes(cfg, s, id);
    } else {
      TightenInv(cfg, s, id);
    }
  }

  lemma FoundIs(s: Man, a: Addr)
    requires IndexOk(s)
    ensures Find(s, a) == (if a in s.addrs then Some(s.addrs[a]) else None)
    ensures a in s.addrs ==> s.addrs[a] in s.info && s.info[s.addrs[a]].addr == a
  {
  }

  lemma IdsBelow(cfg: Config, s: Man, loose: set<int>, limbo: set<int>)
    requires Inv(cfg, s, loose, limbo)
    ensures IndexOk(s) && forall id :: id in s.info ==> 0 <= id < s.idCount
  {
  }

  lemma AddKnownKeeps(cfg: Config, s: Man, id: int, claim: Claim, due: int, now: int, source: Host)
    requires cfg.Ok() && Inv(cfg, s, {}, {}) && id in s.info
    ensures var s1 := SetInfo(s, id, Refresh(s.info[id], claim, due, now));
            && Inv(cfg, s1, {}, {}) && Shrinks(s, s1)
            && (!s1.info[id].inTried && s1.info[id].refCount < BUCKETS_PER_ADDRESS ==>
                  Inv(cfg, Place(cfg, s1, id, source, now).0, {}, {}) && Shrinks(s, Place(cfg, s1, id, source, now).0))
  {
    hide IndexOk, RandomOk, TriedOk, NewsOk, CountsOk, Place;
    var i := Refresh(s.info[id], claim, due, now);
    TouchKeeps(cfg, s, id, i, {}, {});
    var s1 := SetInfo(s, id, i);
    hide Inv, Refresh;
    assert Shrinks(s, s1);
    if !i.inTried && i.refCount < BUCKETS_PER_ADDRESS {
      LoosenInv(cfg, s1, id);
      PlaceKeeps(cfg, s1, id, source, now);
      ShrinksTrans(s, s1, Place(cfg, s1, id, source, now).0);
    }
  }

  lemma AddUnknownKeeps(cfg: Config, s: Man, claim: Claim, due: int, now: int, source: Host)
    requires cfg.Ok() && Inv(cfg, s, {}, {}) && claim.addr !in s.addrs
    ensures var id, s1 := s.idCount, Create(cfg, s, claim, source);
            var s2 := SetInfo(s1, id, s1.info[id].(time := Max(0, s1.info[id].time - due)));
            Inv(cfg, Place(cfg, s2, id, source, now).0, {}, {}) && Shrinks(s1, Place(cfg, s2, id, source, now).0)
  {
    hide IndexOk, RandomOk, TriedOk, NewsOk, CountsOk, Inv, Place;
    CreateKeeps(cfg, s, claim, source);
    var id, s1 := s.idCount, Create(cfg, s, claim, source);
    var i := s1.info[id].(time := Max(0, s1.info[id].time - due));
    TouchKeeps(cfg, s1, id, i, {id}, {});
    var s2 := SetInfo(s1, id, i);
    PlaceKeeps(cfg, s2, id, source, now);
    assert Shrinks(s1, s2);
    ShrinksTrans(s1, s2, Place(cfg, s2, id, source, now).0);
  }

  lemma AddSingleKeeps(cfg: Config, s: Man, claim: Claim, source: Host, penalty: int, now: int, lucky: bool)
    requires cfg.Ok() && Valid(cfg, s)
    ensures var t := AddSingle(cfg, s, claim, source, penalty, now, lucky).0; Valid(cfg, t) && Grows(cfg, s, t)
    ensures !cfg.routable(claim.addr) ==> AddSingle(cfg, s, claim, source, penalty, now, lucky) == (s, false)
  {
    hide IndexOk, RandomOk, TriedOk, NewsOk, CountsOk, CollisionsOk, Inv, Place, Refresh, IsTerrible;
    IdsBelow(cfg, s, {}, {});
    FoundIs(s, claim.addr);
    var t := AddSingle(cfg, s, claim, source, penalty, now, lucky).0;
    if cfg.routable(claim.addr) {
      var due := if cfg.host(claim.addr) == source then 0 else penalty;
      if claim.addr in s.addrs {
        var id := s.addrs[claim.addr];
        AddKnownKeeps(cfg, s, id, claim, due, now, source);
        RefCountAtMost(cfg, SetInfo(s, id, Refresh(s.info[id], claim, due, now)), id);
        assert Shrinks(s, t);
      } else {
        AddUnknownKeeps(cfg, s, claim, due, now, source);
        assert Shrinks(Create(cfg, s, claim, source), t);
      }
    }
    CollisionsKept(cfg, s, t);
  }

  lemma RefCountAtMost(cfg: Config, s: Man, id: int)
    requires Inv(cfg, s, {}, {}) && id in s.info
    ensures s.info[id].refCount <= BUCKETS_PER_ADDRESS
  {
    hide IndexOk, RandomOk, TriedOk, NewsOk, CountsOk;
  }

  // ---------- marking good ----------

  lemma LastGoodFree(cfg: Config, s: Man, time: int)
    requires Inv(cfg, s, {}, {})
    ensures Inv(cfg, s.(lastGood := time), {}, {})
  {
    hide RandomOk, TriedOk, NewsOk;
    CountsCongruent(cfg, s, s.(lastGood := time), {});
  }

  lemma AddCollision(cfg: Config, s: Man, id: int)
    requires Inv(cfg, s, {}, {}) && CollisionsOk(cfg, s)
    requires id in s.info && cfg.TriedSlot(s.info[id].addr) in s.tried
    requires |s.collisions| < MAX_COLLISIONS
    ensures Valid(cfg, s.(collisions := s.collisions + {id}))
  {
    hide RandomOk, TriedOk, NewsOk;
    CountsCongruent(cfg, s, s.(collisions := s.collisions + {id}), {});
  }

  /** Setting the times of an entry that works keeps it in order when the time is positive. */
  lemma GoodTouch(cfg: Config, s: Man, id: int, time: int)
    requires Inv(cfg, s, {}, {}) && id in s.info && time > 0
    ensures var i := s.info[id].(lastSuccess := time, lastTry := time, attempts := 0);
            Inv(cfg, SetInfo(s, id, i), {}, {}) && Shrinks(s, SetInfo(s, id, i))
  {
    hide IndexOk, RandomOk, TriedOk, NewsOk, CountsOk;
    TouchKeeps(cfg, s, id, s.info[id].(lastSuccess := time, lastTry := time, attempts := 0), {}, {});
  }

  lemma GoodKeeps(cfg: Config, s: Man, a: Addr, test: bool, time: int)
    requires cfg.Ok() && Valid(cfg, s) && time > 0
    ensures var t := Good(cfg, s, a, test, time).0;
            && Valid(cfg, t) && Grows(cfg, s, t)
            && (!test ==> t.collisions == s.collisions)
  {
    hide IndexOk, RandomOk, TriedOk, NewsOk, CountsOk, CollisionsOk, Inv, MakeTried;
    IdsBelow(cfg, s, {}, {});
    FoundIs(s, a);
    var t := Good(cfg, s, a, test, time).0;
    var s0 := s.(lastGood := time);
    LastGoodFree(cfg, s, time);
    if a in s.addrs {
      var id := s.addrs[a];
      GoodTouch(cfg, s0, id, time);
      var s1 := SetInfo(s0, id, s0.info[id].(lastSuccess := time, lastTry := time, attempts := 0));
      assert Shrinks(s, s1);
      CollisionsKept(cfg, s, s1);
      if !s1.info[id].inTried && s1.info[id].refCount > 0 {
        if test && cfg.TriedSlot(s1.info[id].addr) in s1.tried {
          if |s1.collisions| < MAX_COLLISIONS { AddCollision(cfg, s1, id); }
        } else {
          MakeTriedKeeps(cfg, s1, id);
          assert Grows(cfg, s, t);
          CollisionsKept(cfg, s, t);
        }
      }
    } else {
      CollisionsKept(cfg, s, t);
    }
  }

  // ---------- the other public operations ----------

  /** New statistics for a known entry, in times that are not negative. */
  lemma StatisticsKeep(cfg: Config, s: Man, id: int, i: Info)
    requires Valid(cfg, s) && id in s.info
    requires i == s.info[id].(time := i.time, services := i.services, lastTry := i.lastTry,
                              lastCountAttempt := i.lastCountAttempt, attempts := i.attempts) && i.lastTry >= 0
    ensures Valid(cfg, SetInfo(s, id, i)) && Grows(cfg, s, SetInfo(s, id, i))
  {
    IdsBelow(cfg, s, {}, {});
    hide IndexOk, RandomOk, TriedOk, NewsOk, CountsOk;
    TouchKeeps(cfg, s, id, i, {}, {});
    CollisionsKept(cfg, s, SetInfo(s, id, i));
  }

  lemma EntryTimes(cfg: Config, s: Man, id: int)
    requires Valid(cfg, s) && id in s.info
    ensures s.info[id].lastTry >= 0
  {
    hide IndexOk, RandomOk, TriedOk, NewsOk, CountsOk, CollisionsOk;
  }

  lemma AttemptKeeps(cfg: Config, s: Man, a: Addr, countFailure: bool, time: int)
    requires Valid(cfg, s) && time >= 0
    ensures var t := Attempt(s, a, countFailure, time); Valid(cfg, t) && Grows(cfg, s, t)
  {
    var found := Find(s, a);
    if found.Some? { StatisticsKeep(cfg, s, found.value, Attempt(s, a, countFailure, time).info[found.value]); }
  }

  lemma ConnectedKeeps(cfg: Config, s: Man, a: Addr, time: int)
    requires Valid(cfg, s)
    ensures var t := Connected(s, a, time); Valid(cfg, t) && Grows(cfg, s, t)
  {
    var found := Find(s, a);
    if found.Some? {
      EntryTimes(cfg, s, found.value);
      StatisticsKeep(cfg, s, found.value, Connected(s, a, time).info[found.value]);
    }
  }

  lemma SetServicesKeeps(cfg: Config, s: Man, a: Addr, services: set<nat>)
    requires Valid(cfg, s)
    ensures var t := SetServices(s, a, services); Valid(cfg, t) && Grows(cfg, s, t)
  {
    var found := Find(s, a);
    if found.Some? {
      EntryTimes(cfg, s, found.value);
      StatisticsKeep(cfg, s, found.value, SetServices(s, a, services).info[found.value]);
    }
  }

  // ---------- collisions ----------

  /**
    A pending collision whose id is still known has an occupied tried slot, and the entry there is
    known: the branch of `ResolveCollisions_` for a collision that is gone is never taken.
   */
  lemma CollisionIsReal(cfg: Config, s: Man, id: int)
    requires Valid(cfg, s) && id in s.collisions && id in s.info
    ensures var slot := cfg.TriedSlot(s.info[id].addr);
            slot in s.tried && s.tried[slot] in s.info && s.info[s.tried[slot]].inTried
  {
  }

  /** `SelectTriedCollision_` never adds an entry: it returns the tried entry in the way, or forgets the id. */
  lemma SelectTriedCollisionKeeps(cfg: Config, s: Man, pick: int)
    requires Valid(cfg, s) && pick in s.collisions
    ensures var (t, r) := SelectTriedCollision(cfg, s, pick);
            && Valid(cfg, t) && Grows(cfg, s, t) && t.info == s.info
            && r.Some? == (pick in s.info)
            && (r.Some? ==> r.value.inTried && cfg.TriedSlot(r.value.addr) == cfg.TriedSlot(s.info[pick].addr))
            && (r.Some? ==> t == s && r.value in s.info.Values)
            && (r.None? ==> t == s.(collisions := s.collisions - {pick}))
  {
    if pick in s.info {
      CollisionIsReal(cfg, s, pick);
    } else {
      ForgetCollision(cfg, s, pick);
    }
  }

  lemma ForgetCollision(cfg: Config, s: Man, id: int)
    requires Valid(cfg, s)
    ensures Valid(cfg, s.(collisions := s.collisions - {id})) && Grows(cfg, s, s.(collisions := s.collisions - {id}))
  {
    hide RandomOk, TriedOk, NewsOk;
    var t := s.(collisions := s.collisions - {id});
    CountsCongruent(cfg, s, t, {});
    CollisionsKept(cfg, s, t);
  }

  lemma ResolveOneIs(cfg: Config, s: Man, id: int, now: int)
    requires cfg.newBuckets > 0
    ensures var t := ResolveOne(cfg, s, id, now).0;
            t == s || (id in s.info && t == Good(cfg, s, s.info[id].addr, false, now).0)
  {
    hide Good;
  }

  lemma ResolveOneKeeps(cfg: Config, s: Man, id: int, now: int)
    requires cfg.Ok() && Valid(cfg, s) && now > 0
    ensures var (t, erase) := ResolveOne(cfg, s, id, now);
            Valid(cfg, t) && Grows(cfg, s, t) && t.collisions == s.collisions
  {
    IdsBelow(cfg, s, {}, {});
    hide IndexOk, RandomOk, TriedOk, NewsOk, CountsOk, CollisionsOk, Inv, Good, ResolveOne, Valid;
    ResolveOneIs(cfg, s, id, now);
    if id in s.info { GoodKeeps(cfg, s, s.info[id].addr, false, now); }
  }

  lemma {:induction false} ResolveCollisionsKeeps(cfg: Config, s: Man, order: seq<int>, clock: seq<int>)
    requires cfg.Ok() && Valid(cfg, s) && |order| == |clock| && forall k :: 0 <= k < |clock| ==> clock[k] > 0
    ensures var t := ResolveCollisions(cfg, s, order, clock);
            Valid(cfg, t) && Grows(cfg, s, t) && t.collisions <= s.collisions
    decreases |order|
  {
    IdsBelow(cfg, s, {}, {});
    if order != [] {
      hide IndexOk, RandomOk, TriedOk, NewsOk, CountsOk, CollisionsOk, Inv, ResolveOne, Valid, Grows;
      ResolveOneKeeps(cfg, s, order[0], clock[0]);
      var (s1, erase) := ResolveOne(cfg, s, order[0], clock[0]);
      var s2 := if erase then s1.(collisions := s1.collisions - {order[0]}) else s1;
      ForgetCollision(cfg, s1, order[0]);
      if erase { GrowsTrans(cfg, s, s1, s2); }
      ResolveCollisionsKeeps(cfg, s2, order[1..], clock[1..]);
      GrowsTrans(cfg, s, s2, ResolveCollisions(cfg, s2, order[1..], clock[1..]));
    }
  }

  // ---------- sampling ----------

  /** The addresses of the eligible entries among the first `n` places of `vRandom`. */
  function EligibleIn(cfg: Config, s: Man, n: nat, network: Option<Network>, now: int): seq<Addr>
    requires n <= |s.random| && forall k :: 0 <= k < n ==> s.random[k] in s.info
  {
    if n == 0 then []
    else
      var i := s.info[s.random[n - 1]];
      EligibleIn(cfg, s, n - 1, network, now) + if Eligible(cfg, i, network, now) then [i.addr] else []
  }

  /** Swapping at or after position `n` leaves the first `n` places, and the entries named there, alone. */
  lemma {:induction false} EligibleInSwap(cfg: Config, s: Man, n: nat, p: nat, q: nat, network: Option<Network>, now: int)
    requires RandomOk(s.info, s.random) && n <= p <= q < |s.random|
    ensures var t := SwapRandom(s, p, q);
            && |t.random| == |s.random| && RandomOk(t.info, t.random)
            && EligibleIn(cfg, t, n, network, now) == EligibleIn(cfg, s, n, network, now)
    decreases n
  {
    var t := SwapRandom(s, p, q);
    if p != q { SwapRandomOk(s.info, s.random, p, q); }
    if n > 0 {
      EligibleInSwap(cfg, s, n - 1, p, q, network, now);
      SwapFrame(s, p, q);
      assert Untouched(s, t, s.random[n - 1]);
      assert t.random[n - 1] == s.random[n - 1];
    }
  }

  /** Every draw falls on a position that was not visited yet. */
  predicate GoodPicks(picks: seq<nat>, total: nat) {
    |picks| == total && forall k :: 0 <= k < total ==> k <= picks[k] < total
  }

  /**
    `GetAddr_` returns the eligible entries among the places it visited, and it visits every place
    unless it has reached its limit first.
   */
  lemma {:induction false} GetAddrReturns(cfg: Config, s: Man, n: nat, limit: nat, picks: seq<nat>,
                                          network: Option<Network>, now: int, got: seq<Addr>)
    requires Inv(cfg, s, {}, {}) && RandomOk(s.info, s.random) && n <= |s.random| && GoodPicks(picks, |s.random|)
    requires got == EligibleIn(cfg, s, n, network, now) && |got| <= limit
    ensures var (t, addresses) := GetAddrFrom(cfg, s, n, limit, picks, network, now, got);
            && Inv(cfg, t, {}, {}) && RandomOk(t.info, t.random)
            && t == s.(info := t.info, random := t.random) && t.info.Keys == s.info.Keys
            && |t.random| == |s.random|
            && (forall k :: Untouched(s, t, k))
            && |addresses| <= limit
            && exists m: nat :: n <= m <= |t.random| && addresses == EligibleIn(cfg, t, m, network, now)
                                && (m == |t.random| || |addresses| == limit)
    decreases |picks| - n
  {
    hide Inv, Eligible, SwapRandom;
    if n < |s.random| && |got| < limit {
      SwapKeeps(cfg, s, n, picks[n], {}, {});
      SwapFrame(s, n, picks[n]);
      EligibleInSwap(cfg, s, n, n, picks[n], network, now);
      var s1 := SwapRandom(s, n, picks[n]);
      var i := s1.info[s1.random[n]];
      var got1 := if Eligible(cfg, i, network, now) then got + [i.addr] else got;
      assert got1 == EligibleIn(cfg, s1, n + 1, network, now);
      hide EligibleIn;
      GetAddrReturns(cfg, s1, n + 1, limit, picks, network, now, got1);
      var t := GetAddrFrom(cfg, s1, n + 1, limit, picks, network, now, got1).0;
      forall k ensures Untouched(s, t, k) { assert Untouched(s, s1, k) && Untouched(s1, t, k); }
    }
  }

  // ---------- runs ----------

  datatype Op =
    | DoAdd(claim: Claim, source: Host, penalty: int, now: int, lucky: bool)
    | DoGood(a: Addr, time: int)
    | DoAttempt(a: Addr, countFailure: bool, time: int)
    | DoConnected(a: Addr, time: int)
    | DoSetServices(a: Addr, services: set<nat>)
    | DoResolve(order: seq<int>, clock: seq<int>)
    | DoSelectCollision(pick: int)
    | DoGetAddr(limit: nat, picks: seq<nat>, network: Option<Network>, now: int)

  function Step(cfg: Config, s: Man, op: Op): Man
    requires cfg.newBuckets > 0
  {
    match op
    case DoAdd(claim, source, penalty, now, lucky) => AddSingle(cfg, s, claim, source, penalty, now, lucky).0
    case DoGood(a, time) => Good(cfg, s, a, true, time).0
    case DoAttempt(a, countFailure, time) => Attempt(s, a, countFailure, time)
    case DoConnected(a, time) => Connected(s, a, time)
    case DoSetServices(a, services) => SetServices(s, a, services)
    case DoResolve(order, clock) => if |order| == |clock| then ResolveCollisions(cfg, s, order, clock) else s
    case DoSelectCollision(pick) => SelectTriedCollision(cfg, s, pick).0
    case DoGetAddr(limit, picks, network, now) => GetAddrFrom(cfg, s, 0, limit, picks, network, now, []).0
  }

  /** Times are positive, and random draws fall where the source draws from. */
  predicate Allowed(s: Man, op: Op) {
    match op
    case DoGood(_, time) => time > 0
    case DoAttempt(_, _, time) => time > 0
    case DoResolve(order, clock) => |order| == |clock| && forall k :: 0 <= k < |clock| ==> clock[k] > 0
    case DoSelectCollision(pick) => pick in s.collisions
    case DoGetAddr(_, picks, _, _) => GoodPicks(picks, |s.random|)
    case _ => true
  }

  lemma GetAddrKeeps(cfg: Config, s: Man, limit: nat, picks: seq<nat>, network: Option<Network>, now: int)
    requires Valid(cfg, s) && GoodPicks(picks, |s.random|)
    ensures var t := GetAddrFrom(cfg, s, 0, limit, picks, network, now, []).0; Valid(cfg, t) && Grows(cfg, s, t)
  {
    IdsBelow(cfg, s, {}, {});
    hide IndexOk, TriedOk, NewsOk, CountsOk, CollisionsOk, GetAddrFrom;
    assert RandomOk(s.info, s.random);
    GetAddrReturns(cfg, s, 0, limit, picks, network, now, []);
    var t := GetAddrFrom(cfg, s, 0, limit, picks, network, now, []).0;
    forall k | k in t.info ensures t.info[k].addr == s.info[k].addr { assert Untouched(s, t, k); }
    CollisionsKept(cfg, s, t);
  }

  /** Each public operation keeps the manager consistent, and no tried slot falls empty. */
  lemma StepKeeps(cfg: Config, s: Man, op: Op)
    requires cfg.Ok() && Valid(cfg, s) && Allowed(s, op)
    ensures Valid(cfg, Step(cfg, s, op)) && Grows(cfg, s, Step(cfg, s, op))
  {
    hide Valid, Inv, Grows, AddSingle, Good, ResolveCollisions, SelectTriedCollision, GetAddrFrom;
    match op
    case DoAdd(claim, source, penalty, now, lucky) => AddSingleKeeps(cfg, s, claim, source, penalty, now, lucky);
    case DoGood(a, time) => GoodKeeps(cfg, s, a, true, time);
    case DoAttempt(a, countFailure, time) => AttemptKeeps(cfg, s, a, countFailure, time);
    case DoConnected(a, time) => ConnectedKeeps(cfg, s, a, time);
    case DoSetServices(a, services) => SetServicesKeeps(cfg, s, a, services);
    case DoResolve(order, clock) => ResolveCollisionsKeeps(cfg, s, order, clock);
    case DoSelectCollision(pick) => SelectTriedCollisionKeeps(cfg, s, pick);
    case DoGetAddr(limit, picks, network, now) => GetAddrKeeps(cfg, s, limit, picks, network, now);
  }

  function Run(cfg: Config, s: Man, ops: seq<Op>): Man
    requires cfg.newBuckets > 0
    decreases |ops|
  {
    if ops == [] then s else Run(cfg, Step(cfg, s, ops[0]), ops[1..])
  }

  predicate AllAllowed(cfg: Config, s: Man, ops: seq<Op>)
    requires cfg.newBuckets > 0
    decreases |ops|
  {
    ops == [] || (Allowed(s, ops[0]) && AllAllowed(cfg, Step(cfg, s, ops[0]), ops[1..]))
  }

  lemma EmptyValid(cfg: Config)
    ensures Valid(cfg, EMPTY)
  {
    assert NewIds(EMPTY.info, {}) == {} && TriedIds(EMPTY.info) == {};
    assert forall n :: On(cfg, EMPTY.info, {}, n) == {};
  }

  /**
    After every run all indexes are consistent; a tried slot filled at any time is still filled
    at the end; and ids never change their address.
   */
  lemma {:induction false} RunKeeps(cfg: Config, s: Man, ops: seq<Op>)
    requires cfg.Ok() && Valid(cfg, s) && AllAllowed(cfg, s, ops)
    ensures Valid(cfg, Run(cfg, s, ops)) && Grows(cfg, s, Run(cfg, s, ops))
    decreases |ops|
  {
    IdsBelow(cfg, s, {}, {});
    if ops != [] {
      hide Valid, Inv, Grows, Step, Allowed;
      StepKeeps(cfg, s, ops[0]);
      var t := Step(cfg, s, ops[0]);
      RunKeeps(cfg, t, ops[1..]);
      GrowsTrans(cfg, s, t, Run(cfg, t, ops[1..]));
    }
  }

  /** From the empty manager: at most ten collisions are pending, and each that is still known is real. */
  lemma RunCollisions(cfg: Config, ops: seq<Op>)
    requires cfg.Ok() && AllAllowed(cfg, EMPTY, ops)
    ensures var s := Run(cfg, EMPTY, ops);
            && |s.collisions| <= MAX_COLLISIONS
            && forall id :: id in s.collisions && id in s.info ==>
                 var slot := cfg.TriedSlot(s.info[id].addr);
                 slot in s.tried && s.tried[slot] in s.info && s.info[s.tried[slot]].inTried
  {
    EmptyValid(cfg);
    RunKeeps(cfg, EMPTY, ops);
    var s := Run(cfg, EMPTY, ops);
    assert |s.collisions| <= MAX_COLLISIONS by { hide Inv; }
    hide Valid, Inv;
    forall id | id in s.collisions && id in s.info
      ensures var slot := cfg.TriedSlot(s.info[id].addr);
              slot in s.tried && s.tried[slot] in s.info && s.info[s.tried[slot]].inTried
    {
      CollisionIsReal(cfg, s, id);
    }
  }
}
