/** Which marks a prune keeps when names of removed marks are still queued, as in `BlockSubmitGuard` of
    `bridge/src/kaspaapi.rs`: what counts is the first place of a name in the queue, even one left by an earlier mark. */
module QueuePlace {
  import opened GuardModel
  import opened KeySpace

  function First<K(==)>(order: seq<K>, k: K): nat {
    if order == [] || order[0] == k then 0 else 1 + First(order[1..], k)
  }

  /** The live names that do not come before `k`. */
  ghost function NotBefore<K, O>(g: Guard<K, O>, k: K): set<K> {
    set x | x in g.entries && First(g.order, x) >= First(g.order, k)
  }

  ghost predicate FreshAt<K, O>(c: Config, g: Guard<K, O>, now: nat, k: K, x: K) {
    x in g.entries && First(g.order, x) <= First(g.order, k) && !Expired(c, g.entries[x], now)
  }

  /** An unexpired mark stands at or ahead of `k`. */
  ghost predicate FreshAhead<K, O>(c: Config, g: Guard<K, O>, now: nat, k: K) {
    exists x :: x in g.entries && FreshAt(c, g, now, k, x)
  }

  lemma PopShifts<K, O>(g: Guard<K, O>, x: K)
    requires g.order != [] && x != g.order[0]
    ensures First(g.order, x) == First(Pop(g).order, x) + 1
  {
  }

  lemma PopNotBefore<K, O>(g: Guard<K, O>, k: K)
    requires g.order != [] && k != g.order[0]
    ensures NotBefore(Pop(g), k) == NotBefore(g, k)
  {
    PopShifts(g, k);
    forall x | x in g.entries && x != g.order[0]
      ensures First(g.order, x) == First(Pop(g).order, x) + 1
    {
      PopShifts(g, x);
    }
  }

  lemma PopFreshAhead<K, O>(c: Config, g: Guard<K, O>, now: nat, k: K)
    requires g.order != [] && k != g.order[0]
    requires g.order[0] in g.entries ==> Expired(c, g.entries[g.order[0]], now)
    ensures FreshAhead(c, Pop(g), now, k) <==> FreshAhead(c, g, now, k)
  {
    PopShifts(g, k);
    if FreshAhead(c, g, now, k) {
      var x :| x in g.entries && FreshAt(c, g, now, k, x);
      PopShifts(g, x);
      assert FreshAt(c, Pop(g), now, k, x);
    }
    if FreshAhead(c, Pop(g), now, k) {
      var x :| x in Pop(g).entries && FreshAt(c, Pop(g), now, k, x);
      PopShifts(g, x);
      assert FreshAt(c, g, now, k, x);
    }
  }

  lemma {:induction false} AgeKeepsIff<K, O>(c: Config, g: Guard<K, O>, now: nat, k: K)
    requires Live(g) && k in g.entries
    ensures k in PopExpired(c, g, now).entries <==> FreshAhead(c, g, now, k)
    ensures k in PopExpired(c, g, now).entries ==> NotBefore(PopExpired(c, g, now), k) == NotBefore(g, k)
    decreases |g.order|
  {
    var front := g.order[0];
    if front in g.entries && !Expired(c, g.entries[front], now) {
      assert FreshAt(c, g, now, k, front);
    } else if k == front {
      FrontDrops(c, g, now, k);
    } else {
      PopLive(g);
      PopFreshAhead(c, g, now, k);
      PopNotBefore(g, k);
      AgeKeepsIff(c, Pop(g), now, k);
    }
  }

  lemma FrontDrops<K, O>(c: Config, g: Guard<K, O>, now: nat, k: K)
    requires Live(g) && g.order != [] && k == g.order[0] && k in g.entries && Expired(c, g.entries[k], now)
    ensures k !in PopExpired(c, g, now).entries && !FreshAhead(c, g, now, k)
  {
    PopLive(g);
    PopExpiredSound(c, Pop(g), now);
    assert forall x :: x in g.entries && First(g.order, x) <= 0 ==> x == k;
  }

  lemma {:induction false} CountKeepsIff<K, O>(c: Config, g: Guard<K, O>, k: K)
    requires Live(g) && k in g.entries
    ensures k in PopExcess(c, g).entries <==> |NotBefore(g, k)| <= c.maxEntries
    decreases |g.order|
  {
    if |g.entries| <= c.maxEntries {
      SubsetCount(NotBefore(g, k), g.entries.Keys);
    } else if k == g.order[0] {
      PopLive(g);
      PopExcessSound(c, Pop(g));
      assert NotBefore(g, k) == g.entries.Keys;
    } else {
      PopLive(g);
      PopNotBefore(g, k);
      CountKeepsIff(c, Pop(g), k);
    }
  }

  /** Exactly which marks a prune keeps: those with an unexpired mark at or ahead of them and at most `maxEntries` marks,
      their own included, not before them, all by first places. */
  lemma KeepsIff<K, O>(c: Config, g: Guard<K, O>, now: nat, k: K)
    requires Live(g) && k in g.entries
    ensures k in Prune(c, g, now).entries <==> FreshAhead(c, g, now, k) && |NotBefore(g, k)| <= c.maxEntries
  {
    var g1 := PopExpired(c, g, now);
    AgeKeepsIff(c, g, now, k);
    PopExpiredSound(c, g, now);
    PopExcessSound(c, g1);
    if k in g1.entries {
      CountKeepsIff(c, g1, k);
    }
  }

  // ---- a run in which a left-over name drops a newer mark ----

  const ROOM_FOR_TWO := Config(600, 2, false)

  ghost predicate FrontFresh<K, O>(c: Config, g: Guard<K, O>, now: nat) {
    g.order != [] && g.order[0] in g.entries && !Expired(c, g.entries[g.order[0]], now)
  }

  lemma PruneKeepsAll<K, O>(c: Config, g: Guard<K, O>, now: nat)
    requires (g.order == [] || FrontFresh(c, g, now)) && |g.entries| <= c.maxEntries
    ensures Prune(c, g, now) == g
  {
  }

  lemma PrunePopsOne<K, O>(c: Config, g: Guard<K, O>, now: nat)
    requires FrontFresh(c, g, now) && |g.entries| == c.maxEntries + 1
    ensures Prune(c, g, now) == Pop(g)
  {
    var h := Pop(g);
    assert h.entries.Keys == g.entries.Keys - {g.order[0]};
    assert |h.entries| == c.maxEntries;
    assert PopExcess(c, h) == h;
  }

  function Marks(hashes: set<int>): map<int, Entry<int>> {
    map h | h in hashes :: Entry(0, 0)
  }

  lemma MarksCount(hashes: set<int>)
    ensures |Marks(hashes)| == |hashes|
  {
    assert Marks(hashes).Keys == hashes;
  }

  /** With room the mark is added. */
  lemma MarkWithRoom(hashes: set<int>, order: seq<int>, h: int)
    requires |hashes| <= 2 && h !in hashes && (order == [] || order[0] in hashes)
    ensures var g, a := Guard(Marks(hashes), order), TryAdmit(h, 0, 0);
            Admits(ROOM_FOR_TWO, g, a) && Next(ROOM_FOR_TWO, g, a) == Guard(Marks(hashes + {h}), order + [h])
  {
    MarksCount(hashes);
    PruneKeepsAll(ROOM_FOR_TWO, Guard(Marks(hashes), order), 0);
    assert Marks(hashes)[h := Entry(0, 0)] == Marks(hashes + {h});
  }

  /** Without, the front name and its mark go first. */
  lemma MarkWithoutRoom(hashes: set<int>, order: seq<int>, h: int)
    requires |hashes| == 3 && h !in hashes && order != [] && order[0] in hashes
    ensures var g, a := Guard(Marks(hashes), order), TryAdmit(h, 0, 0);
            Next(ROOM_FOR_TWO, g, a) == Guard(Marks(hashes - {order[0]} + {h}), order[1..] + [h])
  {
    MarksCount(hashes);
    PrunePopsOne(ROOM_FOR_TWO, Guard(Marks(hashes), order), 0);
    assert Marks(hashes) - {order[0]} == Marks(hashes - {order[0]});
    assert Marks(hashes - {order[0]})[h := Entry(0, 0)] == Marks(hashes - {order[0]} + {h});
  }

  lemma TakeOff(hashes: set<int>, order: seq<int>, h: int)
    requires |hashes| <= 2 && order != [] && order[0] in hashes
    ensures Next(ROOM_FOR_TWO, Guard(Marks(hashes), order), Remove(h, 0)) == Guard(Marks(hashes - {h}), order)
  {
    MarksCount(hashes);
    PruneKeepsAll(ROOM_FOR_TWO, Guard(Marks(hashes), order), 0);
    assert Marks(hashes) - {h} == Marks(hashes - {h});
  }

  ghost predicate Marked(g: Guard<int, int>, hashes: set<int>, order: seq<int>) {
    g == Guard(Marks(hashes), order)
  }

  lemma {:induction false} OneMore(gs: seq<Guard<int, int>>, acts: seq<Act<int, int>>, a: Act<int, int>, g: Guard<int, int>)
    returns (gs': seq<Guard<int, int>>, acts': seq<Act<int, int>>)
    requires Run(ROOM_FOR_TWO, gs, acts) && g == Next(ROOM_FOR_TWO, gs[|acts|], a)
    ensures Run(ROOM_FOR_TWO, gs', acts') && gs' == gs + [g] && acts' == acts + [a]
  {
    gs', acts' := gs + [g], acts + [a];
    forall i | 0 <= i < |acts|
      ensures Follows(ROOM_FOR_TWO, gs', acts', i)
    {
      StillFollows(gs, acts, a, g, i);
    }
  }

  lemma {:induction false} StillFollows(
    gs: seq<Guard<int, int>>, acts: seq<Act<int, int>>, a: Act<int, int>, g: Guard<int, int>, i: nat)
    requires |gs| == |acts| + 1 && i < |acts| && Follows(ROOM_FOR_TWO, gs, acts, i)
    ensures Follows(ROOM_FOR_TWO, gs + [g], acts + [a], i)
  {
  }

  ghost predicate At(gs: seq<Guard<int, int>>, acts: seq<Act<int, int>>, hashes: set<int>, order: seq<int>) {
    Run(ROOM_FOR_TWO, gs, acts) && Marked(gs[|acts|], hashes, order)
  }

  ghost predicate Extends(gs: seq<Guard<int, int>>, acts: seq<Act<int, int>>, gs': seq<Guard<int, int>>,
                          acts': seq<Act<int, int>>, a: Act<int, int>) {
    acts' == acts + [a] && |gs'| == |gs| + 1 && gs'[..|gs|] == gs
  }

  lemma {:induction false} AddMark(gs: seq<Guard<int, int>>, acts: seq<Act<int, int>>, hashes: set<int>, order: seq<int>, h: int)
    returns (gs': seq<Guard<int, int>>, acts': seq<Act<int, int>>)
    requires At(gs, acts, hashes, order) && |hashes| <= 2 && h !in hashes && (order == [] || order[0] in hashes)
    ensures At(gs', acts', hashes + {h}, order + [h]) && Extends(gs, acts, gs', acts', TryAdmit(h, 0, 0))
  {
    MarkWithRoom(hashes, order, h);
    gs', acts' := OneMore(gs, acts, TryAdmit(h, 0, 0), Guard(Marks(hashes + {h}), order + [h]));
  }

  lemma {:induction false} SwapMark(gs: seq<Guard<int, int>>, acts: seq<Act<int, int>>, hashes: set<int>, order: seq<int>, h: int)
    returns (gs': seq<Guard<int, int>>, acts': seq<Act<int, int>>)
    requires At(gs, acts, hashes, order) && |hashes| == 3 && h !in hashes && order != [] && order[0] in hashes
    ensures At(gs', acts', hashes - {order[0]} + {h}, order[1..] + [h]) && Extends(gs, acts, gs', acts', TryAdmit(h, 0, 0))
  {
    MarkWithoutRoom(hashes, order, h);
    gs', acts' := OneMore(gs, acts, TryAdmit(h, 0, 0), Guard(Marks(hashes - {order[0]} + {h}), order[1..] + [h]));
  }

  lemma {:induction false} DropMark(gs: seq<Guard<int, int>>, acts: seq<Act<int, int>>, hashes: set<int>, order: seq<int>, h: int)
    returns (gs': seq<Guard<int, int>>, acts': seq<Act<int, int>>)
    requires At(gs, acts, hashes, order) && |hashes| <= 2 && order != [] && order[0] in hashes
    ensures At(gs', acts', hashes - {h}, order) && Extends(gs, acts, gs', acts', Remove(h, 0))
  {
    TakeOff(hashes, order, h);
    gs', acts' := OneMore(gs, acts, Remove(h, 0), Guard(Marks(hashes - {h}), order));
  }

  lemma {:induction false} MarkedAndTakenOff() returns (gs: seq<Guard<int, int>>, acts: seq<Act<int, int>>)
    ensures At(gs, acts, {1}, [1, 2]) && Marked(gs[0], {}, [])
    ensures acts == [TryAdmit(1, 0, 0), TryAdmit(2, 0, 0), Remove(2, 0)]
  {
    gs, acts := [Guard(Marks({}), [])], [];
    gs, acts := AddMark(gs, acts, {}, [], 1);
    assert {} + {1} == {1};
    gs, acts := AddMark(gs, acts, {1}, [1], 2);
    assert {1} + {2} == {1, 2};
    gs, acts := DropMark(gs, acts, {1, 2}, [1, 2], 2);
    assert {1, 2} - {2} == {1};
  }

  /** Hash 2 is marked, taken off after a refusal, and marked again behind hash 3. */
  lemma {:induction false} MarkedAgain() returns (gs: seq<Guard<int, int>>, acts: seq<Act<int, int>>)
    ensures At(gs, acts, {1, 2, 3}, [1, 2, 3, 2]) && Marked(gs[0], {}, [])
    ensures acts == [TryAdmit(1, 0, 0), TryAdmit(2, 0, 0), Remove(2, 0), TryAdmit(3, 0, 0), TryAdmit(2, 0, 0)]
    ensures Marked(gs[4], {1, 3}, [1, 2, 3])
  {
    gs, acts := MarkedAndTakenOff();
    gs, acts := AddMark(gs, acts, {1}, [1, 2], 3);
    assert {1} + {3} == {1, 3};
    gs, acts := AddMark(gs, acts, {1, 3}, [1, 2, 3], 2);
    assert {1, 3} + {2} == {1, 2, 3};
  }

  /** A mark crowded out by a single newer one although there is room for two: hash 2, taken off before, is marked again
      at step 4, behind hash 3; when the place it left is reached its new mark goes, and the older one of hash 3 stays. */
  lemma {:induction false} OldNameDropsNewMark() returns (gs: seq<Guard<int, int>>, acts: seq<Act<int, int>>)
    ensures Run(ROOM_FOR_TWO, gs, acts) && Marked(gs[0], {}, [])
    ensures acts == [TryAdmit(1, 0, 0), TryAdmit(2, 0, 0), Remove(2, 0), TryAdmit(3, 0, 0), TryAdmit(2, 0, 0),
                     TryAdmit(4, 0, 0), TryAdmit(5, 0, 0)]
    ensures 2 !in gs[4].entries && 2 in gs[6].entries && 2 !in gs[7].entries && 3 in gs[7].entries
  {
    gs, acts := MarkedAgain();
    gs, acts := SwapMark(gs, acts, {1, 2, 3}, [1, 2, 3, 2], 4);
    assert {1, 2, 3} - {1} + {4} == {2, 3, 4} && [1, 2, 3, 2][1..] + [4] == [2, 3, 2, 4];
    gs, acts := SwapMark(gs, acts, {2, 3, 4}, [2, 3, 2, 4], 5);
  }
}
