/**
  What each operation of the address manager does to entries, addresses and tables. Counters, the
  random order and the places in it follow from the invariant, so they are left out here.
 */
module AddrManEffects {

  import opened Collections
  import opened AddrManModel
  import opened AddrManInv
  import opened AddrManOps
  import opened AddrManRuns

  // ---------- the book: the manager without what the invariant fixes ----------

  datatype Book = Book(idCount: int, entries: map<int, Info>, addrs: map<Addr, int>,
                       tried: map<Slot, int>, news: map<Slot, int>, lastGood: int, collisions: set<int>)

  /** The entries without their places in the random order. */
  function Entries(info: map<int, Info>): map<int, Info> {
    map id | id in info :: info[id].(randomPos := 0)
  }

  function BookOf(s: Man): Book {
    Book(s.idCount, Entries(s.info), s.addrs, s.tried, s.news, s.lastGood, s.collisions)
  }

  /** A new slot is emptied: its holder has one reference fewer, and goes if that was its last. */
  function Cleared(b: Book, slot: Slot): Book {
    if slot !in b.news || b.news[slot] !in b.entries then b
    else
      var id := b.news[slot];
      var i := b.entries[id];
      if i.refCount == 1 then b.(entries := b.entries - {id}, addrs := b.addrs - {i.addr}, news := b.news - {slot})
      else b.(entries := b.entries[id := i.(refCount := i.refCount - 1)], news := b.news - {slot})
  }

  lemma EntriesWithout(a: map<int, Info>, b: map<int, Info>, id: int)
    requires id in a && b.Keys == a.Keys - {id}
    requires forall k :: k in b ==> b[k] == a[k].(randomPos := b[k].randomPos)
    ensures Entries(b) == Entries(a) - {id}
  {
    forall k | k in b ensures Entries(b)[k] == Entries(a)[k] { assert b[k] == a[k].(randomPos := b[k].randomPos); }
    assert Entries(b).Keys == b.Keys && (Entries(a) - {id}).Keys == a.Keys - {id};
  }

  lemma EntriesPut(a: map<int, Info>, id: int, i: Info)
    ensures Entries(a[id := i]) == Entries(a)[id := i.(randomPos := 0)]
  {
  }

  lemma DeleteBook(cfg: Config, s: Man, id: int)
    requires RandomOk(s.info, s.random) && id in s.info && s.random != []
    ensures BookOf(Delete(cfg, s, id)) ==
            BookOf(s).(entries := Entries(s.info) - {id}, addrs := s.addrs - {s.info[id].addr})
  {
    DeleteFrame(cfg, s, id);
    assert Delete(cfg, s, id).lastGood == s.lastGood;
    var t := Delete(cfg, s, id);
    hide Delete, RandomOk;
    forall k | k in t.info ensures t.info[k] == s.info[k].(randomPos := t.info[k].randomPos) { assert Untouched(s, t, k); }
    EntriesWithout(s.info, t.info, id);
  }

  lemma DropRefBook(s: Man, slot: Slot)
    requires slot in s.news && s.news[slot] in s.info
    ensures var id := s.news[slot];
            BookOf(DropRef(s, slot)) ==
            BookOf(s).(entries := Entries(s.info)[id := s.info[id].(refCount := s.info[id].refCount - 1, randomPos := 0)],
                       news := s.news - {slot})
  {
    var id := s.news[slot];
    EntriesPut(s.info, id, s.info[id].(refCount := s.info[id].refCount - 1));
  }

  lemma ClearNewBook(cfg: Config, s: Man, slot: Slot)
    requires RandomOk(s.info, s.random)
    requires slot in s.news ==> s.news[slot] in s.info && s.random != []
    ensures BookOf(ClearNew(cfg, s, slot)) == Cleared(BookOf(s), slot)
  {
    if slot in s.news {
      var id := s.news[slot];
      var s1 := DropRef(s, slot);
      RandomStays(s.info, s1.info, s.random);
      DropRefBook(s, slot);
      assert s1.info[id].refCount == s.info[id].refCount - 1 && s1.info[id].addr == s.info[id].addr;
      hide RandomOk, Delete, DropRef;
      if s1.info[id].refCount == 0 {
        DeleteBook(cfg, s1, id);
        assert Entries(s1.info) - {id} == Entries(s.info) - {id};
      }
    }
  }

  // ---------- adding ----------

  /** The holder of a new slot makes way for an entry, which is wanted there more if it has no slot yet. */
  predicate Yields(s: Man, slot: Slot, now: int, homeless: bool) {
    slot !in s.news || (s.news[slot] in s.info
                        && (IsTerrible(s.info[s.news[slot]], now) || (homeless && s.info[s.news[slot]].refCount > 1)))
  }

  /** An entry takes a new slot from whoever holds it. */
  function Taken(b: Book, id: int, i: Info, slot: Slot): Book {
    var c := Cleared(b, slot);
    c.(entries := c.entries[id := i], news := c.news[slot := id])
  }

  lemma PlaceBook(cfg: Config, s: Man, id: int, source: Host, now: int)
    requires cfg.Ok() && Inv(cfg, s, {id}, {})
    requires id in s.info && !s.info[id].inTried && s.info[id].refCount < BUCKETS_PER_ADDRESS
    ensures var (t, added) := Place(cfg, s, id, source, now);
            var slot, i := cfg.NewSlot(s.info[id].addr, source), s.info[id].(randomPos := 0);
            && added == (Yields(s, slot, now, i.refCount == 0) && (slot in s.news ==> s.news[slot] != id))
            && (added ==> BookOf(t) == Taken(BookOf(s), id, i.(refCount := i.refCount + 1), slot))
            && (!added && i.refCount > 0 ==> t == s)
            && (!added && i.refCount == 0 ==>
                  BookOf(t) == BookOf(s).(entries := Entries(s.info) - {id}, addrs := s.addrs - {i.addr}))
  {
    hide IndexOk, TriedOk, NewsOk, CountsOk, Delete, ClearNew, IsTerrible, Cleared;
    var slot := cfg.NewSlot(s.info[id].addr, source);
    HolderKnown(cfg, s, slot, {id}, {});
    var (t, added) := Place(cfg, s, id, source, now);
    if added {
      PlaceInserts(cfg, s, id, slot);
      ClearNewDoesTo(cfg, s, slot, id);
      ClearNewBook(cfg, s, slot);
      var s1 := ClearNew(cfg, s, slot);
      EntriesPut(s1.info, id, s1.info[id].(refCount := s1.info[id].refCount + 1));
    } else if s.info[id].refCount == 0 {
      PlaceDeletes(cfg, s, id);
      DeleteBook(cfg, s, id);
    }
  }

  lemma ClearNewDoesTo(cfg: Config, s: Man, slot: Slot, id: int)
    requires RandomOk(s.info, s.random) && id in s.info && (slot in s.news ==> s.news[slot] in s.info && s.news[slot] != id)
    ensures Untouched(s, ClearNew(cfg, s, slot), id)
  {
    hide RandomOk, ClearNew;
    ClearNewFrame(cfg, s, slot);
  }

  function Due(cfg: Config, claim: Claim, source: Host, penalty: int): int {
    if cfg.host(claim.addr) == source then 0 else penalty
  }

  /** The entry that a claim about an unknown address makes, with its one reference. */
  function Fresh(claim: Claim, source: Host, due: int): Info {
    Info(claim.addr, source, Max(0, claim.time - due), claim.services, 0, 0, 0, 0, 1, false, 0)
  }

  /** After the entry of a claim took its slot. */
  function Joined(b: Book, id: int, i: Info, slot: Slot): Book {
    var c := Taken(b, id, i, slot);
    c.(idCount := id + 1, addrs := c.addrs[i.addr := id])
  }

  /** Adding first or clearing first makes no difference to the other entries. */
  lemma JoinedIs(b: Book, b1: Book, id: int, i: Info, j: Info, slot: Slot)
    requires id !in b.entries && i.addr !in b.addrs
    requires slot in b.news ==> b.news[slot] in b.entries && b.entries[b.news[slot]].addr != i.addr
    requires b1 == b.(idCount := id + 1, entries := b.entries[id := j], addrs := b.addrs[i.addr := id])
    ensures Taken(b1, id, i, slot) == Joined(b, id, i, slot)
  {
    if slot in b.news {
      var h := b.news[slot];
      var k, a := b.entries[h], b.entries[h].addr;
      assert b1.entries[h] == k && h != id;
      if k.refCount == 1 {
        PutTwice(b.entries - {h}, b1.entries - {h}, id, j, i);
        assert b1.addrs - {a} == (b.addrs - {a})[i.addr := id];
      } else {
        var l := k.(refCount := k.refCount - 1);
        PutTwice(b.entries[h := l], b1.entries[h := l], id, j, i);
      }
    }
  }

  lemma PutTwice(m: map<int, Info>, m1: map<int, Info>, id: int, j: Info, i: Info)
    requires m1 == m[id := j]
    ensures m1[id := i] == m[id := i]
  {
  }

  /**
    An unknown address is added exactly if its slot is free or the holder makes way. It then has a fresh
    id, one reference, and what the claim says less the penalty; no other slot changes its holder, and
    only the holder loses anything. Otherwise all is as before, but for an id spent.
   */
  lemma AddUnknownDoes(cfg: Config, s: Man, claim: Claim, source: Host, penalty: int, now: int, lucky: bool)
    requires cfg.Ok() && Valid(cfg, s) && cfg.routable(claim.addr) && claim.addr !in s.addrs
    ensures var (t, added) := AddSingle(cfg, s, claim, source, penalty, now, lucky);
            var slot, id := cfg.NewSlot(claim.addr, source), s.idCount;
            && added == Yields(s, slot, now, true)
            && BookOf(t) == if added then Joined(BookOf(s), id, Fresh(claim, source, Due(cfg, claim, source, penalty)), slot)
                            else BookOf(s).(idCount := id + 1)
  {
    hide IndexOk, RandomOk, TriedOk, NewsOk, CountsOk, CollisionsOk, Inv, Place, IsTerrible, Cleared, Taken, Create;
    IdsBelow(cfg, s, {}, {});
    FoundIs(s, claim.addr);
    var due := Due(cfg, claim, source, penalty);
    var slot, id := cfg.NewSlot(claim.addr, source), s.idCount;
    CreatedBook(cfg, s, claim, source, due);
    var s1 := Create(cfg, s, claim, source);
    var i := s1.info[id].(time := Max(0, claim.time - due));
    var s2 := SetInfo(s1, id, i);
    HolderKnown(cfg, s, slot, {}, {});
    PlaceBook(cfg, s2, id, source, now);
    assert Yields(s2, slot, now, true) == Yields(s, slot, now, true);
    var made, b, b1 := Fresh(claim, source, due), BookOf(s), BookOf(s2);
    if Place(cfg, s2, id, source, now).1 {
      HolderElsewhere(s, slot, claim.addr);
      JoinedIs(b, b1, id, made, made.(refCount := 0), slot);
    } else {
      assert b1.entries - {id} == b.entries && b1.addrs - {claim.addr} == b.addrs;
    }
  }

  /** The entry as it is created, before it is placed. */
  lemma CreatedBook(cfg: Config, s: Man, claim: Claim, source: Host, due: int)
    requires Inv(cfg, s, {}, {}) && claim.addr !in s.addrs
    ensures var s1, id := Create(cfg, s, claim, source), s.idCount;
            && id in s1.info && id !in s.info
            && var s2 := SetInfo(s1, id, s1.info[id].(time := Max(0, claim.time - due)));
               var b, i := BookOf(s), Fresh(claim, source, due).(refCount := 0);
               && Inv(cfg, s2, {id}, {})
               && s1.info[id].time == claim.time && s2.info == s.info[id := i.(randomPos := s2.info[id].randomPos)]
               && BookOf(s2) == b.(idCount := id + 1, entries := b.entries[id := i], addrs := b.addrs[claim.addr := id])
  {
    hide RandomOk, TriedOk, NewsOk, CountsOk;
    IdsBelow(cfg, s, {}, {});
    hide IndexOk;
    CreateKeeps(cfg, s, claim, source);
    var s1, id := Create(cfg, s, claim, source), s.idCount;
    var i := s1.info[id].(time := Max(0, claim.time - due));
    TouchKeeps(cfg, s1, id, i, {id}, {});
    hide Inv;
    EntriesPut(s.info, id, i);
  }

  /** What a claim tells about a known address: a later time, if it is late enough, and more services. */
  function Refreshed(i: Info, claim: Claim, due: int, now: int): Info {
    var late := i.time + due + (if now < claim.time + 86400 then 3600 else 86400) < claim.time;
    i.(time := if late then Max(0, claim.time - due) else i.time, services := i.services + claim.services, randomPos := 0)
  }

  /**
    A known address is refreshed. It gets one more slot exactly if the claim is later than what is known
    then, it is not tried, has fewer than eight slots and luck, does not hold the slot, and the slot
    is free or its holder terrible.
   */
  lemma AddKnownDoes(cfg: Config, s: Man, claim: Claim, source: Host, penalty: int, now: int, lucky: bool)
    requires cfg.Ok() && Valid(cfg, s) && cfg.routable(claim.addr) && claim.addr in s.addrs
    ensures s.addrs[claim.addr] in s.info
    ensures var (t, added) := AddSingle(cfg, s, claim, source, penalty, now, lucky);
            var slot, id := cfg.NewSlot(claim.addr, source), s.addrs[claim.addr];
            var i := Refreshed(s.info[id], claim, Due(cfg, claim, source, penalty), now);
            var b := BookOf(s).(entries := Entries(s.info)[id := i]);
            && added == (claim.time > i.time && !i.inTried && i.refCount < 8 && lucky
                         && (slot in s.news ==> s.news[slot] != id) && Yields(s, slot, now, false))
            && BookOf(t) == if added then Taken(b, id, i.(refCount := i.refCount + 1), slot) else b
  {
    hide IndexOk, RandomOk, TriedOk, NewsOk, CountsOk, CollisionsOk, Inv, Place, IsTerrible, Cleared, Taken, Refresh;
    IdsBelow(cfg, s, {}, {});
    FoundIs(s, claim.addr);
    var slot, id := cfg.NewSlot(claim.addr, source), s.addrs[claim.addr];
    var due := Due(cfg, claim, source, penalty);
    RefreshBook(cfg, s, id, claim, due, now);
    var s1 := SetInfo(s, id, Refresh(s.info[id], claim, due, now));
    HolderKnown(cfg, s, slot, {}, {});
    var i := s1.info[id];
    if !i.inTried && i.refCount < BUCKETS_PER_ADDRESS {
      LoosenInv(cfg, s1, id);
      PlaceBook(cfg, s1, id, source, now);
      assert slot in s.news && s.news[slot] != id ==> s1.info[s.news[slot]] == s.info[s.news[slot]];
    }
  }

  lemma RefreshBook(cfg: Config, s: Man, id: int, claim: Claim, due: int, now: int)
    requires Inv(cfg, s, {}, {}) && id in s.info
    ensures var i := Refresh(s.info[id], claim, due, now);
            var s1 := SetInfo(s, id, i);
            && i.(randomPos := 0) == Refreshed(s.info[id], claim, due, now) && i.addr == s.info[id].addr
            && (!i.inTried ==> i.refCount > 0) && i.refCount <= BUCKETS_PER_ADDRESS
            && Inv(cfg, s1, {}, {}) && BookOf(s1) == BookOf(s).(entries := Entries(s.info)[id := i.(randomPos := 0)])
  {
    hide IndexOk, RandomOk, TriedOk, NewsOk, CountsOk;
    var i := Refresh(s.info[id], claim, due, now);
    TouchKeeps(cfg, s, id, i, {}, {});
    EntriesPut(s.info, id, i);
  }

  lemma HolderElsewhere(s: Man, slot: Slot, a: Addr)
    requires IndexOk(s) && a !in s.addrs && (slot in s.news ==> s.news[slot] in s.info)
    ensures slot in s.news ==> s.info[s.news[slot]].addr != a
  {
    if slot in s.news {
      var h := s.news[slot];
      assert h in s.info && s.addrs[s.info[h].addr] == h;
    }
  }

  /** The claims of one message as operations of a run. */
  function Adds(claims: seq<Claim>, source: Host, penalty: int, now: seq<int>, lucky: seq<bool>, n: nat): seq<Op>
    requires n <= |claims| == |now| == |lucky|
  {
    if n == 0 then []
    else Adds(claims, source, penalty, now, lucky, n - 1) + [DoAdd(claims[n - 1], source, penalty, now[n - 1], lucky[n - 1])]
  }

  lemma {:induction false} RunOneMore(cfg: Config, s: Man, ops: seq<Op>, op: Op)
    requires cfg.newBuckets > 0
    ensures Run(cfg, s, ops + [op]) == Step(cfg, Run(cfg, s, ops), op)
    decreases |ops|
  {
    hide Step;
    if ops == [] {
      assert [] + [op] == [op] && [op][1..] == [];
    } else {
      assert (ops + [op])[0] == ops[0] && (ops + [op])[1..] == ops[1..] + [op];
      RunOneMore(cfg, Step(cfg, s, ops[0]), ops[1..], op);
    }
  }

  /** The `k`th claim, coming after those before it, was added. */
  predicate AddedAt(cfg: Config, s: Man, claims: seq<Claim>, source: Host, penalty: int, now: seq<int>, lucky: seq<bool>,
                    k: nat)
    requires cfg.newBuckets > 0 && k < |claims| == |now| == |lucky|
  {
    AddSingle(cfg, Run(cfg, s, Adds(claims, source, penalty, now, lucky, k)), claims[k], source, penalty, now[k], lucky[k]).1
  }

  /** `Add_` is the run of its claims, and it answers whether any of them was added. */
  lemma {:induction false} AddAllDoes(cfg: Config, s: Man, claims: seq<Claim>, source: Host, penalty: int, now: seq<int>,
                                      lucky: seq<bool>, n: nat)
    requires cfg.newBuckets > 0 && n <= |claims| == |now| == |lucky|
    ensures var (t, any) := AddAll(cfg, s, claims, source, penalty, now, lucky, n);
            && t == Run(cfg, s, Adds(claims, source, penalty, now, lucky, n))
            && (any <==> exists k :: 0 <= k < n && AddedAt(cfg, s, claims, source, penalty, now, lucky, k))
  {
    hide AddSingle, Run;
    if n == 0 {
      RunNothing(cfg, s);
    } else {
      AddAllDoes(cfg, s, claims, source, penalty, now, lucky, n - 1);
      RunOneMore(cfg, s, Adds(claims, source, penalty, now, lucky, n - 1),
                 DoAdd(claims[n - 1], source, penalty, now[n - 1], lucky[n - 1]));
      var (s1, any) := AddAll(cfg, s, claims, source, penalty, now, lucky, n - 1);
      assert AddSingle(cfg, s1, claims[n - 1], source, penalty, now[n - 1], lucky[n - 1]).1 ==
             AddedAt(cfg, s, claims, source, penalty, now, lucky, n - 1);
      hide Adds, AddedAt, Step;
    }
  }

  lemma RunNothing(cfg: Config, s: Man)
    requires cfg.newBuckets > 0
    ensures Run(cfg, s, []) == s
  {
  }

  /** Terrible, as documented: not tried in the last minute, and from the future, over a month old, or failing. */
  lemma TerribleIff(i: Info, now: int)
    ensures IsTerrible(i, now) <==>
            && now > i.lastTry + 60
            && (|| i.time > now + 10 * 60
                || i.time < now - 30 * 86400
                || (i.lastSuccess == 0 && i.attempts >= 3)
                || (i.lastSuccess < now - 7 * 86400 && i.attempts >= 10))
  {
  }

  // ---------- marking good ----------

  /** A tried entry goes back to its home in the new table, with one reference, displacing the holder. */
  function SentBack(b: Book, id: int, home: Slot): Book
    requires id in b.entries
  {
    Taken(b, id, b.entries[id].(inTried := false, refCount := 1), home)
  }

  /** Entry `id` leaves the new table for its slot in the tried table; whoever is there is sent back. */
  function Promoted(cfg: Config, b: Book, id: int): Book
    requires id in b.entries
  {
    var i, slot := b.entries[id], cfg.TriedSlot(b.entries[id].addr);
    var out := b.(entries := b.entries[id := i.(inTried := true, refCount := 0)], news := b.news - Refs(b.news, id));
    var back := if slot !in b.tried || b.tried[slot] !in b.entries then out
                else
                  var o := b.entries[b.tried[slot]];
                  SentBack(out, b.tried[slot], cfg.NewSlot(o.addr, o.source));
    back.(tried := b.tried[slot := id])
  }

  /** What is noted elsewhere, about another entry than the holder, does not matter to clearing a slot. */
  lemma ClearedOther(b: Book, slot: Slot, k: int, x: Info, tried: map<Slot, int>)
    requires slot in b.news ==> b.news[slot] != k
    ensures var c := Cleared(b, slot);
            Cleared(b.(entries := b.entries[k := x], tried := tried), slot) ==
            c.(entries := c.entries[k := x], tried := tried)
  {
    if slot in b.news && b.news[slot] in b.entries {
      var h := b.news[slot];
      var i := b.entries[h];
      if i.refCount == 1 {
        assert b.entries[k := x] - {h} == (b.entries - {h})[k := x];
      } else {
        var l := i.(refCount := i.refCount - 1);
        assert b.entries[k := x][h := l] == b.entries[h := l][k := x];
      }
    }
  }

  lemma TakenOther(b: Book, id: int, i: Info, slot: Slot, k: int, x: Info, tried: map<Slot, int>)
    requires k != id && (slot in b.news ==> b.news[slot] != k)
    ensures var c := Taken(b, id, i, slot);
            Taken(b.(entries := b.entries[k := x], tried := tried), id, i, slot) ==
            c.(entries := c.entries[k := x], tried := tried)
  {
    hide Cleared;
    ClearedOther(b, slot, k, x, tried);
    var c := Cleared(b, slot);
    assert c.entries[k := x][id := i] == c.entries[id := i][k := x];
  }

  lemma TakenSelf(b: Book, id: int, j: Info, i: Info, slot: Slot, tried: map<Slot, int>)
    requires slot in b.news ==> b.news[slot] != id
    ensures Taken(b.(entries := b.entries[id := j], tried := tried), id, i, slot) == Taken(b, id, i, slot).(tried := tried)
  {
    hide Cleared;
    ClearedOther(b, slot, id, j, tried);
    PutTwice(Cleared(b, slot).entries, Cleared(b, slot).entries[id := j], id, j, i);
  }

  lemma EvictBook(cfg: Config, s: Man, id: int, slot: Slot)
    requires cfg.Ok() && Inv(cfg, s, {id}, {id}) && id in s.info && s.info[id].refCount == 0
    ensures slot in s.tried ==> s.tried[slot] in s.info
    ensures BookOf(Evict(cfg, s, slot)) ==
            if slot !in s.tried then BookOf(s)
            else var o := s.info[s.tried[slot]];
                 SentBack(BookOf(s), s.tried[slot], cfg.NewSlot(o.addr, o.source)).(tried := s.tried - {slot})
  {
    hide IndexOk, TriedOk, NewsOk, CountsOk, Inv, ClearNew, Cleared;
    if slot in s.tried {
      LeaveTriedKeeps(cfg, s, slot, {id});
      var idOld := s.tried[slot];
      var s1 := LeaveTried(cfg, s, slot);
      var o := s.info[idOld];
      var home := cfg.NewSlot(o.addr, o.source);
      assert {id} + {idOld} == {id, idOld};
      HolderKnown(cfg, s, home, {id}, {id});
      HolderKnown(cfg, s1, home, {id, idOld}, {id, idOld});
      ClearNewDoesTo(cfg, s1, home, idOld);
      ClearNewBook(cfg, s1, home);
      hide RandomOk;
      var s2 := ClearNew(cfg, s1, home);
      EntriesPut(s.info, idOld, s1.info[idOld]);
      EntriesPut(s2.info, idOld, s2.info[idOld].(refCount := 1));
      TakenSelf(BookOf(s), idOld, s1.info[idOld].(randomPos := 0), o.(inTried := false, refCount := 1, randomPos := 0), home,
                s.tried - {slot});
    }
  }

  lemma MakeTriedBook(cfg: Config, s: Man, id: int)
    requires cfg.Ok() && Inv(cfg, s, {}, {}) && id in s.info && !s.info[id].inTried
    ensures BookOf(MakeTried(cfg, s, id)) == Promoted(cfg, BookOf(s), id)
  {
    hide IndexOk, RandomOk, TriedOk, NewsOk, CountsOk, Inv, ClearRefs, Evict, Taken;
    var i, slot := s.info[id], cfg.TriedSlot(s.info[id].addr);
    ClearRefsKeeps(cfg, s, id);
    var s1 := ClearRefs(cfg, s, id, cfg.newBucket(i.addr, i.source), 0);
    EntriesPut(s.info, id, s1.info[id]);
    LeaveNewKeeps(cfg, s1, id);
    var s2 := CountNew(cfg, s1, id, -1);
    EvictBook(cfg, s2, id, slot);
    EvictKeeps(cfg, s2, id, slot);
    var s3 := Evict(cfg, s2, slot);
    EntriesPut(s3.info, id, s3.info[id].(inTried := true));
    var b2, made := BookOf(s2), i.(inTried := true, refCount := 0, randomPos := 0);
    assert (s.tried - {slot})[slot := id] == s.tried[slot := id];
    PutTwice(Entries(s.info), b2.entries, id, i.(refCount := 0, randomPos := 0), made);
    if slot in s.tried {
      OldIsOther(cfg, s2, id, slot);
      var idOld := s.tried[slot];
      var o := s2.info[idOld];
      var home := cfg.NewSlot(o.addr, o.source);
      assert home in b2.news ==> b2.news[home] != id;
      TakenOther(b2, idOld, b2.entries[idOld].(inTried := false, refCount := 1), home, id, made, s.tried);
    }
  }

  lemma OldIsOther(cfg: Config, s: Man, id: int, slot: Slot)
    requires Inv(cfg, s, {id}, {id}) && id in s.info && !s.info[id].inTried && slot in s.tried
    ensures s.tried[slot] in s.info && s.tried[slot] != id
  {
    hide IndexOk, RandomOk, NewsOk, CountsOk;
  }

  lemma GoodBook(cfg: Config, s: Man, id: int, time: int)
    requires Inv(cfg, s, {}, {}) && id in s.info && time > 0
    ensures var i := s.info[id].(lastSuccess := time, lastTry := time, attempts := 0);
            var s1 := SetInfo(s.(lastGood := time), id, i);
            && Inv(cfg, s1, {}, {}) && (!i.inTried ==> i.refCount > 0)
            && BookOf(s1) == BookOf(s).(entries := Entries(s.info)[id := i.(randomPos := 0)], lastGood := time)
  {
    hide IndexOk, RandomOk, TriedOk, NewsOk, CountsOk;
    LastGoodFree(cfg, s, time);
    GoodTouch(cfg, s.(lastGood := time), id, time);
    EntriesPut(s.info, id, s.info[id].(lastSuccess := time, lastTry := time, attempts := 0));
  }

  /**
    A known entry that is not tried moves to the tried table, unless it is to be tested first and its slot
    there is filled: then it is remembered as a collision, if fewer than ten are. Its statistics
    are set in any case. An unknown address leaves only the time behind.
   */
  lemma GoodDoes(cfg: Config, s: Man, a: Addr, test: bool, time: int)
    requires cfg.Ok() && Valid(cfg, s) && time > 0
    ensures a in s.addrs ==> s.addrs[a] in s.info
    ensures a !in s.addrs ==> Good(cfg, s, a, test, time) == (s.(lastGood := time), false)
    ensures a in s.addrs ==>
              var (t, moved) := Good(cfg, s, a, test, time);
              var id := s.addrs[a];
              var i := s.info[id].(lastSuccess := time, lastTry := time, attempts := 0, randomPos := 0);
              var b := BookOf(s).(entries := Entries(s.info)[id := i], lastGood := time);
              && moved == (!i.inTried && (test ==> cfg.TriedSlot(a) !in s.tried))
              && BookOf(t) == if moved then Promoted(cfg, b, id)
                              else if !i.inTried && |s.collisions| < 10 then b.(collisions := s.collisions + {id}) else b
  {
    hide IndexOk, RandomOk, TriedOk, NewsOk, CountsOk, CollisionsOk, Inv, MakeTried, Promoted;
    IdsBelow(cfg, s, {}, {});
    FoundIs(s, a);
    if a in s.addrs {
      var id := s.addrs[a];
      GoodBook(cfg, s, id, time);
      var i := s.info[id].(lastSuccess := time, lastTry := time, attempts := 0);
      if !i.inTried { MakeTriedBook(cfg, SetInfo(s.(lastGood := time), id, i), id); }
    }
  }

  /** Entry `id` is tried: in its slot, without references, and whoever was there is back at home with one. */
  ghost predicate MovedIn(cfg: Config, s: Man, t: Man, id: int)
    requires id in s.info
  {
    var slot := cfg.TriedSlot(s.info[id].addr);
    && t.tried == s.tried[slot := id]
    && id in t.info && t.info[id].inTried && t.info[id].refCount == 0
    && (forall n :: n in t.news ==> t.news[n] != id)
    && (slot in s.tried ==>
          && s.tried[slot] in s.info && s.tried[slot] in t.info
          && var o, home := s.info[s.tried[slot]], cfg.NewSlot(s.info[s.tried[slot]].addr, s.info[s.tried[slot]].source);
             && home in t.news && t.news[home] == s.tried[slot]
             && t.info[s.tried[slot]] == o.(inTried := false, refCount := 1, randomPos := t.info[s.tried[slot]].randomPos))
  }

  lemma EntryOf(info: map<int, Info>, id: int)
    ensures id in Entries(info) <==> id in info
    ensures id in info ==> info[id] == Entries(info)[id].(randomPos := info[id].randomPos)
  {
  }

  lemma PromotedMovedIn(cfg: Config, s: Man, b: Book, t: Man, id: int)
    requires id in s.info && !s.info[id].inTried && id in b.entries && b.entries[id].addr == s.info[id].addr
    requires forall k :: k in s.info && k != id ==> k in b.entries && b.entries[k] == Entries(s.info)[k]
    requires b.tried == s.tried && b.news == s.news && BookOf(t) == Promoted(cfg, b, id)
    requires var slot := cfg.TriedSlot(s.info[id].addr); slot in s.tried ==> s.tried[slot] in s.info && s.tried[slot] != id
    ensures MovedIn(cfg, s, t, id)
  {
    var slot := cfg.TriedSlot(s.info[id].addr);
    EntryOf(t.info, id);
    if slot in s.tried {
      EntryOf(t.info, s.tried[slot]);
      EntryOf(s.info, s.tried[slot]);
    }
  }

  /** The same without reference to the book. */
  lemma GoodMoves(cfg: Config, s: Man, a: Addr, test: bool, time: int)
    requires cfg.Ok() && Valid(cfg, s) && time > 0 && a in s.addrs
    ensures s.addrs[a] in s.info
    ensures var (t, moved) := Good(cfg, s, a, test, time);
            var id := s.addrs[a];
            && moved == (!s.info[id].inTried && (test ==> cfg.TriedSlot(a) !in s.tried))
            && (moved ==> MovedIn(cfg, s, t, id) && t.collisions == s.collisions)
            && (!moved ==> t.tried == s.tried && t.news == s.news)
            && id in t.info && t.info[id].lastSuccess == t.info[id].lastTry == t.lastGood == time && t.info[id].attempts == 0
  {
    hide IndexOk, RandomOk, NewsOk, CountsOk, CollisionsOk, Good, Promoted, MovedIn;
    IdsBelow(cfg, s, {}, {});
    FoundIs(s, a);
    GoodDoes(cfg, s, a, test, time);
    var (t, moved) := Good(cfg, s, a, test, time);
    var id := s.addrs[a];
    var i := s.info[id].(lastSuccess := time, lastTry := time, attempts := 0, randomPos := 0);
    var b := BookOf(s).(entries := Entries(s.info)[id := i], lastGood := time);
    hide Inv, TriedOk;
    EntryOf(t.info, id);
    if moved {
      PromotedKeeps(cfg, b, id);
      assert cfg.TriedSlot(a) in s.tried ==> s.tried[cfg.TriedSlot(a)] in s.info && s.tried[cfg.TriedSlot(a)] != id by {
        HolderTried(cfg, s, cfg.TriedSlot(a));
      }
      PromotedMovedIn(cfg, s, b, t, id);
    }
  }

  lemma HolderTried(cfg: Config, s: Man, slot: Slot)
    requires Inv(cfg, s, {}, {})
    ensures slot in s.tried ==> s.tried[slot] in s.info && s.info[s.tried[slot]].inTried
  {
  }

  lemma PromotedKeeps(cfg: Config, b: Book, id: int)
    requires id in b.entries
    requires var slot := cfg.TriedSlot(b.entries[id].addr); slot in b.tried ==> b.tried[slot] != id
    ensures var c := Promoted(cfg, b, id);
            && id in c.entries && c.entries[id] == b.entries[id].(inTried := true, refCount := 0)
            && c.lastGood == b.lastGood && c.collisions == b.collisions
  {
  }

  // ---------- collisions ----------

  /** The tried entry `o` gives way to `i`: no success for four hours, and no answer or no test in time. */
  predicate GivesWay(o: Info, i: Info, now: int) {
    && o.lastSuccess <= now - 4 * 3600
    && (if o.lastTry > now - 4 * 3600 then o.lastTry < now - 60 else i.lastSuccess < now - 40 * 60)
  }

  /**
    A pending collision is dropped if its entry is gone or the tried one succeeded in the last four hours;
    it is resolved by a move if the tried one gives way; and otherwise it stays pending.
   */
  lemma ResolveOneDoes(cfg: Config, s: Man, id: int, now: int)
    requires cfg.Ok() && Valid(cfg, s) && now > 0 && id in s.collisions
    ensures var (t, dropped) := ResolveOne(cfg, s, id, now);
            if id !in s.info || !cfg.valid(s.info[id].addr) then t == s && dropped
            else
              var slot := cfg.TriedSlot(s.info[id].addr);
              && slot in s.tried && s.tried[slot] in s.info
              && var o, i := s.info[s.tried[slot]], s.info[id];
                 && dropped == (o.lastSuccess > now - 4 * 3600 || GivesWay(o, i, now))
                 && (!GivesWay(o, i, now) ==> t == s)
                 && (GivesWay(o, i, now) && !i.inTried ==> MovedIn(cfg, s, t, id) && t.collisions == s.collisions)
                 && (GivesWay(o, i, now) && i.inTried ==> t.tried == s.tried && t.news == s.news)
  {
    hide IndexOk, RandomOk, TriedOk, NewsOk, CountsOk, Inv, Good, MovedIn, ResolveOne, GivesWay;
    if id in s.info && cfg.valid(s.info[id].addr) {
      CollisionIsReal(cfg, s, id);
      IdsBelow(cfg, s, {}, {});
      hide CollisionsOk, Valid;
      KnownAt(s, id);
      GoodMoves(cfg, s, s.info[id].addr, false, now);
      ResolveOneCases(cfg, s, id, now);
    } else {
      ResolveOneGone(cfg, s, id, now);
    }
  }

  lemma ResolveOneGone(cfg: Config, s: Man, id: int, now: int)
    requires cfg.newBuckets > 0 && (id !in s.info || !cfg.valid(s.info[id].addr))
    ensures ResolveOne(cfg, s, id, now) == (s, true)
  {
    hide Good;
  }

  lemma ResolveOneCases(cfg: Config, s: Man, id: int, now: int)
    requires cfg.newBuckets > 0 && id in s.info && cfg.valid(s.info[id].addr)
    requires var slot := cfg.TriedSlot(s.info[id].addr); slot in s.tried && s.tried[slot] in s.info
    ensures var i, o := s.info[id], s.info[s.tried[cfg.TriedSlot(s.info[id].addr)]];
            ResolveOne(cfg, s, id, now) ==
            (if GivesWay(o, i, now) then Good(cfg, s, i.addr, false, now).0 else s,
             o.lastSuccess > now - 4 * 3600 || GivesWay(o, i, now))
  {
    hide Good;
  }

  /** One turn, with the collision forgotten if it is dropped. */
  function Turn(cfg: Config, s: Man, id: int, now: int): Man
    requires cfg.newBuckets > 0
  {
    var (t, dropped) := ResolveOne(cfg, s, id, now);
    if dropped then t.(collisions := t.collisions - {id}) else t
  }

  /** `ResolveCollisions_` takes one turn for each id, in order. */
  lemma {:induction false} ResolveCollisionsDoes(cfg: Config, s: Man, order: seq<int>, clock: seq<int>)
    returns (states: seq<Man>)
    requires cfg.newBuckets > 0 && |order| == |clock|
    ensures |states| == |order| + 1 && states[0] == s && states[|order|] == ResolveCollisions(cfg, s, order, clock)
    ensures forall k :: 0 <= k < |order| ==> states[k + 1] == Turn(cfg, states[k], order[k], clock[k])
    decreases |order|
  {
    hide ResolveOne;
    if order == [] {
      states := [s];
    } else {
      var rest := ResolveCollisionsDoes(cfg, Turn(cfg, s, order[0], clock[0]), order[1..], clock[1..]);
      states := [s] + rest;
    }
  }

  // ---------- statistics ----------

  /** The entry of an address is replaced, and nothing else changes; an unknown address changes nothing. */
  predicate Rewrites(s: Man, t: Man, a: Addr, i: Info) {
    if a in s.addrs then t == s.(info := s.info[s.addrs[a] := i]) else t == s
  }

  function EntryAt(s: Man, a: Addr): Info {
    if a in s.addrs && s.addrs[a] in s.info then s.info[s.addrs[a]] else BLANK
  }

  /**
    An attempt sets the time tried, and is counted as a failure if asked for and none was counted since the
    last success anywhere. A connection moves the time seen by more than twenty minutes or not at all.
   */
  lemma StatisticsDo(cfg: Config, s: Man, a: Addr, countFailure: bool, time: int, services: set<nat>)
    requires Valid(cfg, s)
    ensures var i := EntryAt(s, a);
            var counted := countFailure && i.lastCountAttempt < s.lastGood;
            && Rewrites(s, Attempt(s, a, countFailure, time), a,
                        if counted then i.(lastTry := time, lastCountAttempt := time, attempts := i.attempts + 1)
                        else i.(lastTry := time))
            && Rewrites(s, Connected(s, a, time), a, if time > i.time + 1200 then i.(time := time) else i)
            && Rewrites(s, SetServices(s, a, services), a, i.(services := services))
  {
    hide RandomOk, TriedOk, NewsOk, CountsOk, CollisionsOk;
    FoundIs(s, a);
  }

  // ---------- sampling ----------

  /** The limit is the largest number within the share and the maximum asked for. */
  lemma LimitIs(total: nat, maxAddresses: nat, maxPct: nat, m: nat)
    ensures m <= Limit(total, maxAddresses, maxPct) <==>
            && (if maxPct != 0 then 100 * m <= maxPct * total else m <= total)
            && (maxAddresses != 0 ==> m <= maxAddresses)
  {
    var share := maxPct * total;
    assert m <= share / 100 <==> 100 * m <= share;
  }

  predicate Distinct(addresses: seq<Addr>) {
    forall j, k :: 0 <= j < k < |addresses| ==> addresses[j] != addresses[k]
  }

  /** The address belongs to an eligible entry among the first `n` places. */
  predicate Within(cfg: Config, s: Man, n: nat, network: Option<Network>, now: int, a: Addr) {
    a in s.addrs && s.addrs[a] in s.info
    && var i := s.info[s.addrs[a]]; i.randomPos < n && Eligible(cfg, i, network, now)
  }

  lemma {:induction false} EligibleInIs(cfg: Config, s: Man, n: nat, network: Option<Network>, now: int)
    requires IndexOk(s) && RandomOk(s.info, s.random) && n <= |s.random|
    ensures var r := EligibleIn(cfg, s, n, network, now);
            Distinct(r) && forall a :: a in r <==> Within(cfg, s, n, network, now, a)
  {
    hide Eligible;
    var r := EligibleIn(cfg, s, n, network, now);
    if n == 0 {
      forall a | a in s.addrs ensures !Within(cfg, s, n, network, now, a) {
        var id := s.addrs[a];
        assert id in s.info && s.random[s.info[id].randomPos] == id;
      }
    } else {
      EligibleInIs(cfg, s, n - 1, network, now);
      var id := s.random[n - 1];
      var i := s.info[id];
      assert s.addrs[i.addr] == id && i.randomPos == n - 1;
      forall a ensures a in r <==> Within(cfg, s, n, network, now, a) {
        if a in s.addrs { assert s.info[s.addrs[a]].randomPos == n - 1 ==> s.addrs[a] == id && a == i.addr; }
      }
      assert !Within(cfg, s, n - 1, network, now, i.addr);
    }
  }

  /**
    `GetAddr_` returns addresses of different known entries, all eligible, never more than the limit;
    and if it returns fewer, it returns every one that is eligible.
   */
  lemma GetAddrDoes(cfg: Config, s: Man, maxAddresses: nat, maxPct: nat, picks: seq<nat>, network: Option<Network>, now: int)
    requires Valid(cfg, s) && GoodPicks(picks, |s.random|)
    ensures var limit := Limit(|s.random|, maxAddresses, maxPct);
            var addresses := GetAddrFrom(cfg, s, 0, limit, picks, network, now, []).1;
            && Distinct(addresses) && |addresses| <= limit
            && (forall a :: a in addresses ==> a in s.addrs && s.addrs[a] in s.info)
            && (forall a :: a in addresses ==> Eligible(cfg, s.info[s.addrs[a]], network, now))
            && (|addresses| < limit ==>
                  forall id :: id in s.info && Eligible(cfg, s.info[id], network, now) ==> s.info[id].addr in addresses)
  {
    hide TriedOk, NewsOk, CountsOk, CollisionsOk, GetAddrFrom, Limit, IsTerrible;
    var limit := Limit(|s.random|, maxAddresses, maxPct);
    assert RandomOk(s.info, s.random);
    GetAddrReturns(cfg, s, 0, limit, picks, network, now, []);
    var (t, addresses) := GetAddrFrom(cfg, s, 0, limit, picks, network, now, []);
    var m: nat :| m <= |t.random| && addresses == EligibleIn(cfg, t, m, network, now)
                  && (m == |t.random| || |addresses| == limit);
    assert IndexOk(t) && IndexOk(s);
    EligibleInIs(cfg, t, m, network, now);
    hide IndexOk, Inv;
    forall a | a in addresses ensures a in s.addrs && s.addrs[a] in s.info && Eligible(cfg, s.info[s.addrs[a]], network, now) {
      assert Within(cfg, t, m, network, now, a);
      assert Untouched(s, t, s.addrs[a]);
      PlaceIrrelevant(cfg, s.info[s.addrs[a]], t.info[s.addrs[a]].randomPos, network, now);
    }
    if |addresses| < limit {
      forall id | id in s.info && Eligible(cfg, s.info[id], network, now) ensures s.info[id].addr in addresses {
        KnownAt(s, id);
        assert Untouched(s, t, id);
        PlaceIrrelevant(cfg, s.info[id], t.info[id].randomPos, network, now);
        assert Within(cfg, t, m, network, now, s.info[id].addr);
      }
    }
  }

  lemma PlaceIrrelevant(cfg: Config, i: Info, place: int, network: Option<Network>, now: int)
    ensures Eligible(cfg, i.(randomPos := place), network, now) == Eligible(cfg, i, network, now)
  {
  }

  lemma KnownAt(s: Man, id: int)
    requires IndexOk(s) && id in s.info
    ensures s.info[id].addr in s.addrs && s.addrs[s.info[id].addr] == id
  {
  }
}
