/** What every run of the cuckoo cache keeps: entries findable and distinct, and a bounded current epoch. */
module CuckooRuns {

  import opened Collections
  import opened Cuckoo

  // ---------- searching ----------

  lemma {:induction false} FindIs(locs: seq<nat>, x: nat, k: nat)
    requires k <= |locs|
    ensures k <= Find(locs, x, k) <= |locs| && (forall j :: k <= j < Find(locs, x, k) ==> locs[j] != x)
    ensures Find(locs, x, k) < |locs| ==> locs[Find(locs, x, k)] == x
    decreases |locs| - k
  {
    if k < |locs| && locs[k] != x { FindIs(locs, x, k + 1); }
  }

  /** The dead slot chosen is the first in the order of the slots; if there is none, all are live. */
  lemma {:induction false} FreeIs(s: State, locs: seq<nat>, k: nat) returns (at: nat)
    requires k <= |locs| && forall j :: 0 <= j < |locs| ==> locs[j] < |s.dead|
    ensures k <= at <= |locs| && (forall j :: k <= j < at ==> !s.dead[locs[j]])
    ensures Free(s, locs, k) == if at < |locs| then Some(locs[at]) else None
    ensures at < |locs| ==> s.dead[locs[at]]
    decreases |locs| - k
  {
    if k == |locs| || s.dead[locs[k]] { at := k; } else { at := FreeIs(s, locs, k + 1); }
  }

  lemma {:induction false} MatchIs(s: State, locs: seq<nat>, e: Element, k: nat) returns (at: nat)
    requires k <= |locs| && forall j :: 0 <= j < |locs| ==> locs[j] < |s.table|
    ensures k <= at <= |locs| && (forall j :: k <= j < at ==> s.table[locs[j]] != e)
    ensures Match(s, locs, e, k) == if at < |locs| then Some(locs[at]) else None
    ensures at < |locs| ==> s.table[locs[at]] == e
    decreases |locs| - k
  {
    if k == |locs| || s.table[locs[k]] == e { at := k; } else { at := MatchIs(s, locs, e, k + 1); }
  }

  // ---------- the invariant ----------

  /** Slot `i` comes before slot `j` in the order in which slots are tried. */
  ghost predicate Before(locs: seq<nat>, i: nat, j: nat) {
    Find(locs, i, 0) < Find(locs, j, 0)
  }

  /** An entry is at one of its eight slots; only the filling of unused slots need not be. */
  ghost predicate AtHome(p: Params, s: State)
    requires Sized(p, s)
  {
    forall i :: 0 <= i < p.size ==> i in p.Locs(s.table[i]) || (s.table[i] == DEFAULT && s.dead[i])
  }

  /**
    No element is in two slots. The exception is the filling, of which any number of dead copies may
    be left; but a live copy is the first that a search comes to.
   */
  ghost predicate Single(p: Params, s: State)
    requires Sized(p, s)
  {
    forall i, j :: 0 <= i < p.size && 0 <= j < p.size && i != j && s.table[i] == s.table[j] ==>
      s.table[i] == DEFAULT && (!s.dead[i] ==> s.dead[j] && (j in p.Locs(DEFAULT) ==> Before(p.Locs(DEFAULT), i, j)))
  }

  ghost predicate Valid(p: Params, s: State) {
    Sized(p, s) && AtHome(p, s) && Single(p, s)
  }

  /** The live elements: those not yet discarded. */
  function Live(s: State): set<Element>
    requires |s.table| == |s.dead|
  {
    set i | 0 <= i < |s.dead| && !s.dead[i] :: s.table[i]
  }

  /** The slots with live entries of the current epoch. */
  function Current(s: State): set<nat>
    requires |s.epoch| == |s.dead|
  {
    set i: nat | 0 <= i < |s.dead| && s.epoch[i] && !s.dead[i]
  }

  /** The element in hand while entries are displaced: nowhere in the table, except as dead filling. */
  ghost predicate Absent(s: State, e: Element)
    requires |s.table| == |s.dead|
  {
    forall i :: 0 <= i < |s.table| && s.table[i] == e ==> e == DEFAULT && s.dead[i]
  }

  // ---------- placing ----------

  /** In a dead slot: the first dead one for the element. */
  lemma PlaceFreeKeeps(p: Params, s: State, e: Element, epoch: bool, at: nat)
    requires p.Ok() && Valid(p, s) && Absent(s, e) && at < 8 && |p.Locs(e)| == 8
    requires forall j :: 0 <= j < 8 ==> p.Locs(e)[j] < p.size
    requires s.dead[p.Locs(e)[at]] && forall j :: 0 <= j < at ==> !s.dead[p.Locs(e)[j]]
    ensures Valid(p, Place(s, p.Locs(e)[at], e, epoch))
  {
    hide Params.Locs;
    var locs, loc := p.Locs(e), p.Locs(e)[at];
    var t := Place(s, loc, e, epoch);
    forall j | 0 <= j < p.size && j != loc && t.table[j] == e
      ensures e == DEFAULT && t.dead[j] && (j in locs ==> Before(locs, loc, j))
    {
      FindIs(locs, loc, 0);
      FindIs(locs, j, 0);
      if j in locs {
        var m :| 0 <= m < 8 && locs[m] == j;
        assert Find(locs, j, 0) <= m < 8;
        assert s.dead[locs[Find(locs, j, 0)]];
      }
    }
    assert loc in p.Locs(t.table[loc]);
    assert Single(p, t);
  }

  lemma PlaceFreeLive(s: State, loc: nat, e: Element, epoch: bool)
    requires loc < |s.table| == |s.dead| == |s.epoch| && s.dead[loc]
    ensures Live(Place(s, loc, e, epoch)) == Live(s) + {e}
    ensures |Current(Place(s, loc, e, epoch))| == |Current(s)| + if epoch then 1 else 0
  {
    var t := Place(s, loc, e, epoch);
    forall x ensures x in Live(t) <==> x in Live(s) + {e} {
      if x in Live(s) {
        var i :| 0 <= i < |s.dead| && !s.dead[i] && s.table[i] == x;
        assert !t.dead[i] && t.table[i] == x;
      }
      if x == e { assert !t.dead[loc] && t.table[loc] == e; }
    }
    if epoch { assert Current(t) == Current(s) + {loc}; } else { assert Current(t) == Current(s); }
  }

  /** Found again: the first copy is kept, and it is the only live one. */
  lemma ReviveKeeps(p: Params, s: State, e: Element, at: nat)
    requires p.Ok() && Valid(p, s) && at < 8 && |p.Locs(e)| == 8
    requires forall j :: 0 <= j < 8 ==> p.Locs(e)[j] < p.size
    requires s.table[p.Locs(e)[at]] == e && forall j :: 0 <= j < at ==> s.table[p.Locs(e)[j]] != e
    ensures Valid(p, Place(s, p.Locs(e)[at], e, true))
  {
    hide Params.Locs;
    var locs, loc := p.Locs(e), p.Locs(e)[at];
    var t := Place(s, loc, e, true);
    FindIs(locs, loc, 0);
    forall j | 0 <= j < p.size && j != loc && t.table[j] == e
      ensures e == DEFAULT && t.dead[j] && (j in locs ==> Before(locs, loc, j))
    {
      FindIs(locs, j, 0);
      if j in locs {
        var m :| 0 <= m < 8 && locs[m] == j;
        assert Find(locs, j, 0) <= m < 8;
      }
    }
    assert loc in p.Locs(t.table[loc]);
    assert Single(p, t);
  }

  lemma ReviveLive(s: State, loc: nat, e: Element)
    requires loc < |s.table| == |s.dead| == |s.epoch| && s.table[loc] == e
    ensures Live(Place(s, loc, e, true)) == Live(s) + {e}
    ensures |Current(Place(s, loc, e, true))| <= |Current(s)| + 1
  {
    var t := Place(s, loc, e, true);
    forall x ensures x in Live(t) <==> x in Live(s) + {e} {
      if x in Live(s) {
        var i :| 0 <= i < |s.dead| && !s.dead[i] && s.table[i] == x;
        assert !t.dead[i] && t.table[i] == x;
      }
      if x == e { assert !t.dead[loc] && t.table[loc] == e; }
    }
    assert Current(t) == Current(s) + {loc};
  }

  // ---------- displacing ----------

  function Kick(s: State, loc: nat, e: Element, epoch: bool): State
    requires loc < |s.table| == |s.epoch|
  {
    s.(table := s.table[loc := e], epoch := s.epoch[loc := epoch])
  }

  /** All slots of `e` are live: it takes one of them, and the entry from there is in hand instead. */
  lemma KickKeeps(p: Params, s: State, e: Element, epoch: bool, loc: nat)
    requires p.Ok() && Valid(p, s) && Absent(s, e) && loc in p.Locs(e) && loc < p.size
    requires forall l :: l in p.Locs(e) ==> l < p.size && !s.dead[l]
    ensures Valid(p, Kick(s, loc, e, epoch)) && Absent(Kick(s, loc, e, epoch), s.table[loc])
  {
    hide Params.Locs;
    var t := Kick(s, loc, e, epoch);
    assert loc in p.Locs(t.table[loc]);
    assert Single(p, t);
  }

  lemma KickLive(s: State, loc: nat, e: Element, epoch: bool)
    requires loc < |s.table| == |s.dead| == |s.epoch| && !s.dead[loc] && Absent(s, e)
    requires Absent(Kick(s, loc, e, epoch), s.table[loc])
    ensures Live(Kick(s, loc, e, epoch)) == Live(s) + {e} - {s.table[loc]} && s.table[loc] in Live(s)
    ensures |Current(Kick(s, loc, e, epoch))| + (if s.epoch[loc] then 1 else 0) == |Current(s)| + (if epoch then 1 else 0)
  {
    var t := Kick(s, loc, e, epoch);
    forall x ensures x in Live(t) <==> x in Live(s) + {e} - {s.table[loc]} {
      if x in Live(s) && x != s.table[loc] {
        var i :| 0 <= i < |s.dead| && !s.dead[i] && s.table[i] == x;
        assert !t.dead[i] && t.table[i] == x;
      }
      if x == e { assert !t.dead[loc] && t.table[loc] == e; }
    }
    var others := Current(s) - {loc};
    assert Current(s) == if s.epoch[loc] then others + {loc} else others;
    assert Current(t) == if epoch then others + {loc} else others;
  }

  lemma VictimIs(locs: seq<nat>, last: nat)
    requires |locs| == 8
    ensures Victim(locs, last) in locs
  {
    FindIs(locs, last, 0);
  }

  /**
    The first entry to make way is the one in the second slot: nothing has been looked at, so the search ends
    past the last.
   */
  lemma FirstVictim(locs: seq<nat>)
    requires |locs| == 8 && INVALID !in locs
    ensures Victim(locs, INVALID) == locs[1]
  {
    FindIs(locs, INVALID, 0);
  }

  /** After that it is the next slot round the eight, so that the element just put in is not the one to make way. */
  lemma NextVictim(locs: seq<nat>, k: nat)
    requires |locs| == 8 && k < 8 && forall i, j :: 0 <= i < j < 8 ==> locs[i] != locs[j]
    ensures Victim(locs, locs[k]) == locs[if k == 7 then 0 else k + 1] != locs[k]
  {
    FindIs(locs, locs[k], 0);
  }

  function Dropped(o: Option<Element>): set<Element> {
    if o.Some? then {o.value} else {}
  }

  lemma AbsentNotLive(s: State, e: Element)
    requires |s.table| == |s.dead| && Absent(s, e)
    ensures e !in Live(s)
  {
  }

  /** However long the chain: every live element stays, the new one joins, and at most one is dropped. */
  lemma {:induction false} DisplaceKeeps(p: Params, s: State, e: Element, epoch: bool, last: nat, depth: nat)
    requires p.Ok() && Valid(p, s) && Absent(s, e)
    ensures var (t, dropped) := Displace(p, s, e, epoch, last, depth);
            && Valid(p, t) && t.counter == s.counter
            && Live(t) == Live(s) + {e} - Dropped(dropped)
            && |Current(t)| <= |Current(s)| + if epoch then 1 else 0
    decreases p.depthLimit - depth, 1
  {
    hide Params.Locs, Valid, Absent, Live, Current;
    assert Sized(p, s) by { ValidSized(p, s); }
    if depth >= p.depthLimit {
      AbsentNotLive(s, e);
      assert Live(s) + {e} - {e} == Live(s);
    } else {
      LocsFit(p, e);
      var locs := p.Locs(e);
      var at := FreeIs(s, locs, 0);
      if at < 8 {
        PlaceFreeKeeps(p, s, e, epoch, at);
        PlaceFreeLive(s, locs[at], e, epoch);
        assert Live(s) + {e} - {} == Live(s) + {e};
      } else {
        KickOn(p, s, e, epoch, last, depth);
      }
    }
  }

  lemma {:induction false} KickOn(p: Params, s: State, e: Element, epoch: bool, last: nat, depth: nat)
    requires p.Ok() && Valid(p, s) && Absent(s, e) && depth < p.depthLimit && |p.Locs(e)| == 8
    requires forall j :: 0 <= j < 8 ==> p.Locs(e)[j] < p.size && !s.dead[p.Locs(e)[j]]
    requires Free(s, p.Locs(e), 0).None?
    ensures var (t, dropped) := Displace(p, s, e, epoch, last, depth);
            && Valid(p, t) && t.counter == s.counter
            && Live(t) == Live(s) + {e} - Dropped(dropped)
            && |Current(t)| <= |Current(s)| + if epoch then 1 else 0
    decreases p.depthLimit - depth, 0
  {
    hide Params.Locs, Valid, Absent, Live, Current, Free;
    assert Sized(p, s) by { ValidSized(p, s); }
    var loc := Victim(p.Locs(e), last);
    VictimIs(p.Locs(e), last);
    KickKeeps(p, s, e, epoch, loc);
    KickLive(s, loc, e, epoch);
    var s1, v := Kick(s, loc, e, epoch), s.table[loc];
    DisplaceKeeps(p, s1, v, s.epoch[loc], loc, depth + 1);
    var (t, dropped) := Displace(p, s1, v, s.epoch[loc], loc, depth + 1);
    HandOver(Live(s), e, v, Live(s1), Dropped(dropped));
  }

  lemma HandOver(before: set<Element>, e: Element, v: Element, between: set<Element>, dropped: set<Element>)
    requires v in before && between == before + {e} - {v}
    ensures between + {v} - dropped == before + {e} - dropped
  {
  }

  lemma ValidSized(p: Params, s: State)
    requires Valid(p, s)
    ensures Sized(p, s)
  {
  }

  // ---------- epochs ----------

  lemma {:induction false} CountIs(s: State, n: nat)
    requires n <= |s.dead| == |s.epoch|
    ensures Count(s, n) == |set i: nat | 0 <= i < n && s.epoch[i] && !s.dead[i]|
  {
    var now := set i: nat | 0 <= i < n && s.epoch[i] && !s.dead[i];
    if n == 0 {
      assert now == {};
    } else {
      CountIs(s, n - 1);
      var before := set i: nat | 0 <= i < n - 1 && s.epoch[i] && !s.dead[i];
      if s.epoch[n - 1] && !s.dead[n - 1] { assert now == before + {n - 1}; } else { assert now == before; }
    }
  }

  function Bound(p: Params): int { p.epochSize + Max(1, p.epochSize / 16) }

  /** Before the next insertion there is room for one more entry of the current epoch. */
  ghost predicate Paced(p: Params, s: State)
    requires |s.epoch| == |s.dead|
  {
    |Current(s)| + s.counter <= Bound(p)
  }

  /** Entries of the last epoch are discarded exactly when the counter is at zero and the current epoch is full. */
  lemma EpochCheckKeeps(p: Params, s: State)
    requires p.Ok() && Valid(p, s)
    ensures var t := EpochCheck(p, s);
            && Valid(p, t) && Live(t) <= Live(s) && t.table == s.table
            && (Paced(p, s) ==> |Current(t)| + 1 + t.counter <= Bound(p))
    ensures var t := EpochCheck(p, s);
            if s.counter == 0 && |Current(s)| >= p.epochSize then
              Current(t) == {} && t.counter == p.epochSize
              && forall i :: 0 <= i < p.size ==> t.dead[i] == (s.dead[i] || !s.epoch[i])
            else
              t.dead == s.dead && t.epoch == s.epoch
              && t.counter == if s.counter > 0 then s.counter - 1
                              else Max(1, Max(p.epochSize / 16, p.epochSize - |Current(s)|))
  {
    hide Params.Locs;
    var t := EpochCheck(p, s);
    CountIs(s, |s.dead|);
    assert Current(s) == set i: nat | 0 <= i < |s.dead| && s.epoch[i] && !s.dead[i];
    if s.counter == 0 && Count(s, |s.dead|) >= p.epochSize { assert Current(t) == {}; }
  }

  // ---------- the operations ----------

  lemma NotFoundAbsent(p: Params, s: State, e: Element)
    requires p.Ok() && Valid(p, s) && |p.Locs(e)| == 8 && forall j :: 0 <= j < 8 ==> p.Locs(e)[j] < p.size
    requires forall j :: 0 <= j < 8 ==> s.table[p.Locs(e)[j]] != e
    ensures Absent(s, e)
  {
    hide Params.Locs;
  }

  /**
    `insert`, apart from what the epoch check ages: the new element joins the live ones and at most
    one is dropped; all remain distinct and at their slots; and the current epoch stays bounded.
   */
  lemma InsertKeeps(p: Params, s: State, e: Element)
    requires p.Ok() && Valid(p, s)
    ensures var (t, dropped) := Insert(p, s, e);
            && Valid(p, t)
            && Live(t) == Live(EpochCheck(p, s)) + {e} - Dropped(dropped)
            && (Paced(p, s) ==> Paced(p, t))
  {
    hide Params.Locs, Valid, Absent, Live, Current, EpochCheck;
    assert Sized(p, s) by { ValidSized(p, s); }
    EpochCheckKeeps(p, s);
    var s1 := EpochCheck(p, s);
    assert Sized(p, s1) by { ValidSized(p, s1); }
    LocsFit(p, e);
    var locs := p.Locs(e);
    var at := MatchIs(s1, locs, e, 0);
    if at < 8 {
      ReviveKeeps(p, s1, e, at);
      ReviveLive(s1, locs[at], e);
      assert Live(s1) + {e} - {} == Live(s1) + {e};
    } else {
      NotFoundAbsent(p, s1, e);
      DisplaceKeeps(p, s1, e, true, INVALID, 0);
    }
  }

  /** All eight slots of an element are live. */
  ghost predicate Full(p: Params, s: State, e: Element)
    requires Sized(p, s)
  {
    forall l :: l in p.Locs(e) && l < p.size ==> !s.dead[l]
  }

  /**
    The elements in hand, one after the other: each but the last had all its slots live. Either the
    depth limit was reached and the last is dropped, or the last had a dead slot and nothing is.
   */
  lemma {:induction false} DisplaceChain(p: Params, s: State, e: Element, epoch: bool, last: nat, depth: nat)
    returns (hands: seq<Element>)
    requires p.Ok() && Sized(p, s) && depth <= p.depthLimit
    ensures 1 <= |hands| <= p.depthLimit - depth + 1 && hands[0] == e
    ensures forall k :: 0 <= k < |hands| - 1 ==> Full(p, s, hands[k])
    ensures var dropped := Displace(p, s, e, epoch, last, depth).1;
            && (dropped.Some? <==> |hands| == p.depthLimit - depth + 1)
            && (dropped.Some? ==> dropped.value == hands[|hands| - 1])
            && (dropped.None? ==> !Full(p, s, hands[|hands| - 1]))
    decreases p.depthLimit - depth
  {
    hide Params.Locs;
    LocsFit(p, e);
    hands := [e];
    if depth < p.depthLimit {
      var locs := p.Locs(e);
      var at := FreeIs(s, locs, 0);
      if at == 8 {
        assert Full(p, s, e);
        var loc := Victim(locs, last);
        VictimIs(locs, last);
        var s1 := Kick(s, loc, e, epoch);
        var rest := DisplaceChain(p, s1, s.table[loc], s.epoch[loc], loc, depth + 1);
        assert forall x :: Full(p, s1, x) == Full(p, s, x);
        hands := [e] + rest;
      } else {
        assert locs[at] in p.Locs(e);
      }
    }
  }

  /**
    An element that has a dead slot after the epoch check, or lies in one of its slots, is stored: nothing
    is dropped and it is found. Something is dropped only if as many elements in turn as the depth
    limit, the new one first, had all eight slots live.
   */
  lemma InsertStores(p: Params, s: State, e: Element) returns (hands: seq<Element>)
    requires p.Ok() && Valid(p, s)
    ensures var s1 := EpochCheck(p, s);
            var (t, dropped) := Insert(p, s, e);
            && Sized(p, s1) && Sized(p, t)
            && (!Full(p, s1, e) || Contains(p, s1, e, false).1 ==>
                  dropped.None? && Live(t) == Live(s1) + {e} && Contains(p, t, e, false).1)
            && (dropped.Some? ==>
                  && |hands| == p.depthLimit + 1 && hands[0] == e && hands[p.depthLimit] == dropped.value
                  && forall k :: 0 <= k < p.depthLimit ==> Full(p, s1, hands[k]))
  {
    hide Params.Locs, Valid, Absent, Live, Current, EpochCheck, Full;
    hands := [];
    assert Sized(p, s) by { ValidSized(p, s); }
    EpochCheckKeeps(p, s);
    var s1 := EpochCheck(p, s);
    assert Sized(p, s1) by { ValidSized(p, s1); }
    InsertKeeps(p, s, e);
    var (t, dropped) := Insert(p, s, e);
    assert Sized(p, t) by { ValidSized(p, t); }
    if !Contains(p, s1, e, false).1 { hands := DisplaceChain(p, s1, e, true, INVALID, 0); }
    if dropped.None? {
      assert Live(s1) + {e} - {} == Live(s1) + {e};
      ContainsKeeps(p, t, e, false);
    }
  }

  /**
    `contains` finds every live element, erasing takes that element, and no other, from the live ones, and
    leaves it to be found.
   */
  lemma ContainsKeeps(p: Params, s: State, e: Element, erase: bool)
    requires p.Ok() && Valid(p, s)
    ensures var (t, found) := Contains(p, s, e, erase);
            && Valid(p, t) && (e in Live(s) ==> found)
            && Live(t) == (if erase then Live(s) - {e} else Live(s))
            && (Paced(p, s) ==> Paced(p, t))
            && Contains(p, t, e, false).1 == found
  {
    hide Params.Locs;
    LocsFit(p, e);
    var locs := p.Locs(e);
    var at := MatchIs(s, locs, e, 0);
    var at' := MatchIs(Contains(p, s, e, erase).0, locs, e, 0);
    if at == 8 {
      NotFoundAbsent(p, s, e);
      AbsentNotLive(s, e);
    } else if erase {
      EraseKeeps(p, s, e, at);
    }
  }

  lemma EraseKeeps(p: Params, s: State, e: Element, at: nat)
    requires p.Ok() && Valid(p, s) && at < 8 && |p.Locs(e)| == 8
    requires forall j :: 0 <= j < 8 ==> p.Locs(e)[j] < p.size
    requires s.table[p.Locs(e)[at]] == e && forall j :: 0 <= j < at ==> s.table[p.Locs(e)[j]] != e
    ensures var t := s.(dead := s.dead[p.Locs(e)[at] := true]);
            Valid(p, t) && Live(t) == Live(s) - {e} && (Paced(p, s) ==> Paced(p, t))
  {
    hide Params.Locs;
    var locs, loc := p.Locs(e), p.Locs(e)[at];
    var t := s.(dead := s.dead[loc := true]);
    FindIs(locs, loc, 0);
    forall j | 0 <= j < p.size && j != loc && s.table[j] == e ensures s.dead[j] {
      FindIs(locs, j, 0);
    }
    forall x ensures x in Live(t) <==> x in Live(s) - {e} {
      if x in Live(s) && x != e {
        var i :| 0 <= i < |s.dead| && !s.dead[i] && s.table[i] == x;
        assert !t.dead[i] && t.table[i] == x;
      }
    }
    Fewer(Current(t), Current(s));
  }

  lemma Fewer(a: set<nat>, b: set<nat>)
    requires a <= b
    ensures |a| <= |b|
  {
    assert b == a + (b - a);
  }

  // ---------- runs ----------

  datatype Op = DoInsert(e: Element) | DoContains(e: Element, erase: bool)

  ghost function Step(p: Params, s: State, op: Op): State
    requires p.Ok() && Sized(p, s)
  {
    match op
    case DoInsert(e) => Insert(p, s, e).0
    case DoContains(e, erase) => Contains(p, s, e, erase).0
  }

  lemma StepKeeps(p: Params, s: State, op: Op)
    requires p.Ok() && Valid(p, s) && Paced(p, s)
    ensures Valid(p, Step(p, s, op)) && Paced(p, Step(p, s, op))
  {
    hide Valid, Paced, Insert, Contains;
    assert Sized(p, s) by { ValidSized(p, s); }
    match op
    case DoInsert(e) => InsertKeeps(p, s, e);
    case DoContains(e, erase) => ContainsKeeps(p, s, e, erase);
  }

  ghost function Run(p: Params, s: State, ops: seq<Op>): State
    requires p.Ok() && Valid(p, s) && Paced(p, s)
    decreases |ops|
  {
    if ops == [] then s
    else
      StepKeeps(p, s, ops[0]);
      Run(p, Step(p, s, ops[0]), ops[1..])
  }

  lemma SetupValid(p: Params)
    requires p.Ok()
    ensures Valid(p, Setup(p.size, p.epochSize)) && Paced(p, Setup(p.size, p.epochSize))
    ensures Live(Setup(p.size, p.epochSize)) == {}
  {
    hide Params.Locs;
    assert Current(Setup(p.size, p.epochSize)) == {};
  }

  lemma {:induction false} RunKeeps(p: Params, s: State, ops: seq<Op>)
    requires p.Ok() && Valid(p, s) && Paced(p, s)
    ensures Valid(p, Run(p, s, ops)) && Paced(p, Run(p, s, ops))
    decreases |ops|
  {
    if ops != [] {
      StepKeeps(p, s, ops[0]);
      RunKeeps(p, Step(p, s, ops[0]), ops[1..]);
    }
  }

  /**
    From `setup` on, in every run of insertions and lookups: each live element is at one of its eight
    slots and in no other live slot, so it is found; and live entries of the current epoch never
    exceed the epoch size by more than a sixteenth of it, or by one.
   */
  lemma RunBounded(p: Params, ops: seq<Op>, e: Element)
    requires p.Ok()
    ensures Valid(p, Setup(p.size, p.epochSize)) && Paced(p, Setup(p.size, p.epochSize))
    ensures var s := Run(p, Setup(p.size, p.epochSize), ops);
            && Valid(p, s)
            && (e in Live(s) ==> Contains(p, s, e, false).1)
            && (forall i, j :: 0 <= i < j < p.size && !s.dead[i] && !s.dead[j] ==> s.table[i] != s.table[j])
            && |Current(s)| <= p.epochSize + Max(1, p.epochSize / 16)
  {
    hide Setup, Run, Valid, Paced;
    SetupValid(p);
    RunKeeps(p, Setup(p.size, p.epochSize), ops);
    Consequences(p, Run(p, Setup(p.size, p.epochSize), ops), e);
  }

  lemma Consequences(p: Params, s: State, e: Element)
    requires p.Ok() && Valid(p, s) && Paced(p, s)
    ensures Sized(p, s) && (e in Live(s) ==> Contains(p, s, e, false).1)
    ensures forall i, j :: 0 <= i < j < p.size && !s.dead[i] && !s.dead[j] ==> s.table[i] != s.table[j]
    ensures |Current(s)| <= p.epochSize + Max(1, p.epochSize / 16)
  {
    hide Params.Locs, Current, Contains;
    ContainsKeeps(p, s, e, false);
  }

  // ---------- nothing is found that was not put in ----------

  /** Every slot holds the filling element or one of `es`, whether it is live or not. */
  predicate From(s: State, es: set<Element>) {
    forall i :: 0 <= i < |s.table| ==> s.table[i] == DEFAULT || s.table[i] in es
  }

  lemma {:induction false} DisplaceFrom(p: Params, s: State, e: Element, epoch: bool, last: nat, depth: nat, es: set<Element>)
    requires p.Ok() && Sized(p, s) && From(s, es) && (e == DEFAULT || e in es)
    ensures From(Displace(p, s, e, epoch, last, depth).0, es)
    decreases p.depthLimit - depth
  {
    hide Params.Locs;
    LocsFit(p, e);
    if depth < p.depthLimit {
      var locs := p.Locs(e);
      if Free(s, locs, 0).Some? {
        FreeFits(s, locs, 0);
      } else {
        var loc := Victim(locs, last);
        DisplaceFrom(p, s.(table := s.table[loc := e], epoch := s.epoch[loc := epoch]), s.table[loc], s.epoch[loc], loc,
                     depth + 1, es);
      }
    }
  }

  lemma StepFrom(p: Params, s: State, op: Op, es: set<Element>)
    requires p.Ok() && Sized(p, s) && From(s, es) && (op.DoInsert? ==> op.e in es)
    ensures From(Step(p, s, op), es)
  {
    hide Params.Locs;
    LocsFit(p, op.e);
    MatchFits(s, p.Locs(op.e), op.e, 0);
    if op.DoInsert? {
      var s1 := EpochCheck(p, s);
      MatchFits(s1, p.Locs(op.e), op.e, 0);
      assert s1.table == s.table;
      if Match(s1, p.Locs(op.e), op.e, 0).None? { DisplaceFrom(p, s1, op.e, true, INVALID, 0, es); }
    }
  }

  function Inserted(ops: seq<Op>): set<Element> { set op | op in ops && op.DoInsert? :: op.e }

  lemma {:induction false} RunFrom(p: Params, s: State, ops: seq<Op>, es: set<Element>)
    requires p.Ok() && Valid(p, s) && Paced(p, s) && From(s, es) && Inserted(ops) <= es
    ensures From(Run(p, s, ops), es)
    decreases |ops|
  {
    hide Valid, Paced, Step;
    if ops != [] {
      assert Sized(p, s) by { ValidSized(p, s); }
      assert ops[0] in ops && Inserted(ops[1..]) <= Inserted(ops);
      assert ops[0].DoInsert? ==> ops[0].e in Inserted(ops);
      StepFrom(p, s, ops[0], es);
      StepKeeps(p, s, ops[0]);
      RunFrom(p, Step(p, s, ops[0]), ops[1..], es);
    }
  }

  /**
    In every run from `setup` on, what is found was inserted in that run, or is the element that fills
    unused slots. That one is reported from the start, without ever being inserted.
   */
  lemma RunSound(p: Params, ops: seq<Op>, e: Element)
    requires p.Ok()
    ensures Valid(p, Setup(p.size, p.epochSize)) && Paced(p, Setup(p.size, p.epochSize))
    ensures var s := Run(p, Setup(p.size, p.epochSize), ops);
            Sized(p, s) && (Contains(p, s, e, false).1 ==> e in Inserted(ops) || e == DEFAULT)
    ensures Contains(p, Setup(p.size, p.epochSize), DEFAULT, false).1
  {
    hide Params.Locs, Run;
    SetupValid(p);
    var s0 := Setup(p.size, p.epochSize);
    RunFrom(p, s0, ops, Inserted(ops));
    RunKeeps(p, s0, ops);
    var s := Run(p, s0, ops);
    LocsFit(p, e);
    LocsFit(p, DEFAULT);
    hide Valid, Paced;
    assert Sized(p, s) by { ValidSized(p, s); }
    var at := MatchIs(s, p.Locs(e), e, 0);
    var first := MatchIs(s0, p.Locs(DEFAULT), DEFAULT, 0);
    assert s0.table[p.Locs(DEFAULT)[0]] == DEFAULT;
  }
}
