/** `DuplicateSubmitGuard` of `bridge/src/share_handler.rs`: decides which share submissions are new. */
module SubmitGuard {
  import opened KeySpace
  import opened GuardModel

  datatype Outcome = InFlight | Accepted | Stale | LowDiff | Bad

  /** 180 seconds and 50 000 entries, as the share handler sets it up. */
  const HANDLER_CONFIG := Config(180_000_000_000, 50_000, true)

  /** The queue lists each live key exactly once: its first name is live and not repeated, and the same holds
      of the rest. `WfMeans` says it without the recursion. */
  ghost predicate Wf<K, O>(g: Guard<K, O>)
    decreases |g.order|
  {
    if g.order == [] then g.entries == map[]
    else g.order[0] in g.entries && g.order[0] !in g.order[1..] && Wf(Pop(g))
  }

  lemma PopSize<K, O>(g: Guard<K, O>)
    requires g.order != [] && g.order[0] in g.entries
    ensures |g.entries| == |Pop(g).entries| + 1
  {
    assert Pop(g).entries.Keys == g.entries.Keys - {g.order[0]};
  }

  lemma PopDistinct<K>(order: seq<K>)
    requires order != [] && order[0] !in order[1..] && Distinct(order[1..])
    ensures Distinct(order)
  {
    forall i, j | 0 <= i < j < |order|
      ensures order[i] != order[j]
    {
      assert order[j] == order[1..][j - 1] && (i > 0 ==> order[i] == order[1..][i - 1]);
    }
  }

  lemma {:induction false} WfMeans<K, O>(g: Guard<K, O>)
    requires Wf(g)
    ensures Live(g) && Distinct(g.order) && |g.order| == |g.entries|
    ensures forall i :: 0 <= i < |g.order| ==> g.order[i] in g.entries
    decreases |g.order|
  {
    if g.order != [] {
      var h := Pop(g);
      WfMeans(h);
      PopSize(g);
      PopDistinct(g.order);
      forall i | 0 < i < |g.order|
        ensures g.order[i] in g.entries
      {
        assert h.order[i - 1] in h.entries;
      }
      assert Live(g) by { assert g.order == [g.order[0]] + h.order; }
    }
  }

  function PopN<K, O>(g: Guard<K, O>, n: nat): Guard<K, O>
    requires n <= |g.order|
    decreases n
  {
    if n == 0 then g else PopN(Pop(g), n - 1)
  }

  /** Popping `n` names leaves exactly the entries queued from position `n` on. */
  lemma {:induction false} PopNKeeps<K, O>(g: Guard<K, O>, n: nat, i: nat)
    requires Wf(g) && n <= |g.order|
    ensures Wf(PopN(g, n)) && PopN(g, n).order == g.order[n..]
    ensures i < |g.order| ==> (g.order[i] in PopN(g, n).entries <==> i >= n)
    decreases n
  {
    if n == 0 {
      WfMeans(g);
    } else {
      if i > 0 {
        PopNKeeps(Pop(g), n - 1, i - 1);
      } else {
        PopNKeeps(Pop(g), n - 1, 0);
        PopNShrinks(Pop(g), n - 1);
      }
    }
  }

  lemma {:induction false} PopNShrinks<K, O>(g: Guard<K, O>, n: nat)
    requires n <= |g.order|
    ensures Kept(PopN(g, n), g)
    decreases n
  {
    if n > 0 {
      PopNShrinks(Pop(g), n - 1);
    }
  }

  lemma {:induction false} PopNCompose<K, O>(g: Guard<K, O>, n: nat, m: nat)
    requires n + m <= |g.order|
    ensures |PopN(g, n).order| == |g.order| - n && PopN(PopN(g, n), m) == PopN(g, n + m)
    decreases n
  {
    if n > 0 {
      PopNCompose(Pop(g), n - 1, m);
    }
  }

  lemma {:induction false} PopExpiredIs<K, O>(c: Config, g: Guard<K, O>, now: nat) returns (n: nat)
    requires Wf(g)
    ensures n <= |g.order| && PopExpired(c, g, now) == PopN(g, n)
    ensures forall i :: 0 <= i < |g.order| ==> g.order[i] in g.entries
    ensures forall i :: 0 <= i < n ==> Expired(c, g.entries[g.order[i]], now)
    ensures n < |g.order| ==> !Expired(c, g.entries[g.order[n]], now)
    decreases |g.order|
  {
    if g.order == [] || !Expired(c, g.entries[g.order[0]], now) {
      WfMeans(g);
      n := 0;
    } else {
      var h := Pop(g);
      var m := PopExpiredIs(c, h, now);
      n := m + 1;
      forall i | 0 < i < |g.order|
        ensures g.order[i] in g.entries && g.entries[g.order[i]] == h.entries[h.order[i - 1]]
      {
        assert g.order[i] == h.order[i - 1];
      }
    }
  }

  function Excess<K, O>(c: Config, g: Guard<K, O>): nat {
    if |g.order| > c.maxEntries then |g.order| - c.maxEntries else 0
  }

  lemma {:induction false} SameCount<K, O>(g: Guard<K, O>)
    requires Wf(g)
    ensures |g.order| == |g.entries|
  {
    WfMeans(g);
  }

  lemma {:induction false} PopExcessIs<K, O>(c: Config, g: Guard<K, O>, n: nat)
    requires Wf(g) && n == Excess(c, g)
    ensures PopExcess(c, g) == PopN(g, n)
    decreases n
  {
    SameCount(g);
    if n > 0 {
      var h := PopExcessOnce(c, g, n);
      PopExcessIs(c, h, n - 1);
    }
  }

  lemma {:induction false} PopExcessOnce<K, O>(c: Config, g: Guard<K, O>, n: nat) returns (h: Guard<K, O>)
    requires |g.entries| > c.maxEntries && 0 < n <= |g.order| && Wf(g)
    ensures PopExcess(c, g) == PopExcess(c, h)
    ensures |h.order| == |g.order| - 1 && PopN(g, n) == PopN(h, n - 1) && Wf(h)
  {
    h := Pop(g);
  }

  /** The two loops together pop a prefix of the queue: the expired one, or one more than `maxEntries` away from the end. */
  lemma {:induction false} PruneIsPopN<K, O>(c: Config, g: Guard<K, O>, now: nat, n: nat)
    requires Wf(g) && n <= |g.order| && PopExpired(c, g, now) == PopN(g, n)
    ensures Prune(c, g, now) == PopN(g, if |g.order| - n > c.maxEntries then |g.order| - c.maxEntries else n)
  {
    PopNKeeps(g, n, 0);
    PopExcessIs(c, PopN(g, n), Excess(c, PopN(g, n)));
    PopNCompose(g, n, Excess(c, PopN(g, n)));
  }

  /** Exactly which entries a prune keeps: those among the newest `maxEntries` that have an unexpired entry at
      or ahead of them in the queue. An entry can so outlive its own time behind one that was refreshed. */
  lemma PruneKeepsIff<K, O>(c: Config, g: Guard<K, O>, now: nat, i: nat)
    requires Wf(g) && i < |g.order|
    ensures forall j :: 0 <= j < |g.order| ==> g.order[j] in g.entries
    ensures g.order[i] in Prune(c, g, now).entries <==>
            && |g.order| - i <= c.maxEntries
            && exists j :: 0 <= j <= i && !Expired(c, g.entries[g.order[j]], now)
  {
    var n := PopExpiredIs(c, g, now);
    PruneIsPopN(c, g, now, n);
    PopNKeeps(g, if |g.order| - n > c.maxEntries then |g.order| - c.maxEntries else n, i);
    if n <= i {
      assert !Expired(c, g.entries[g.order[n]], now);
    }
  }

  lemma PruneWf<K, O>(c: Config, g: Guard<K, O>, now: nat)
    requires Wf(g)
    ensures Wf(Prune(c, g, now))
  {
    var n := PruneIsPop(c, g, now);
  }

  lemma {:induction false} InsertWf<K, O>(g: Guard<K, O>, k: K, e: Entry<O>)
    requires Wf(g) && k !in g.entries
    ensures Wf(Insert(g, k, e))
    decreases |g.order|
  {
    var g' := Insert(g, k, e);
    if g.order == [] {
      assert Pop(g') == Guard(map[], []);
    } else {
      InsertWf(Pop(g), k, e);
      assert g'.order[1..] == Pop(g).order + [k];
      assert g'.entries - {g.order[0]} == (g.entries - {g.order[0]})[k := e];
    }
  }

  lemma {:induction false} UpdateWf<K, O>(g: Guard<K, O>, k: K, e: Entry<O>)
    requires Wf(g) && k in g.entries
    ensures Wf(Guard(g.entries[k := e], g.order))
    decreases |g.order|
  {
    if k == g.order[0] {
      assert g.entries[k := e] - {k} == g.entries - {k};
    } else {
      UpdateWf(Pop(g), k, e);
      assert g.entries[k := e] - {g.order[0]} == (g.entries - {g.order[0]})[k := e];
    }
  }

  /** Admissions and outcomes keep the queue listing each live key once. */
  lemma StepWf<K, O>(c: Config, g: Guard<K, O>, a: Act<K, O>)
    requires Wf(g) && !a.Remove?
    ensures Wf(Next(c, g, a)) && |Next(c, g, a).order| <= c.maxEntries + 1
  {
    var g1 := Prune(c, g, a.now);
    PruneWf(c, g, a.now);
    WfMeans(g);
    if Admits(c, g, a) {
      PruneWf(c, g1, a.now);
      PruneSound(c, g, a.now);
      WfMeans(g1);
      PruneSound(c, g1, a.now);
      InsertWf(if c.pruneAgain then Prune(c, g1, a.now) else g1, a.key, Entry(a.now, a.outcome));
    } else if a.SetOutcome? && a.key in g1.entries {
      UpdateWf(g1, a.key, Entry(a.now, a.outcome));
    }
    StepSound(c, g, a, a.key);
    WfMeans(Next(c, g, a));
  }

  ghost predicate NoRemovals<K, O>(acts: seq<Act<K, O>>) {
    forall i :: 0 <= i < |acts| ==> !acts[i].Remove?
  }

  lemma {:induction false} RunWf<K, O>(c: Config, gs: seq<Guard<K, O>>, acts: seq<Act<K, O>>, i: nat)
    requires Run(c, gs, acts) && Wf(gs[0]) && i <= |acts|
    requires NoRemovals(acts)
    ensures Wf(gs[i])
  {
    if i > 0 {
      RunWf(c, gs, acts, i - 1);
      StepWf(c, gs[i - 1], acts[i - 1]);
      assert Follows(c, gs, acts, i - 1);
    }
  }

  /** An expired mark that outlives its time: of two marks made together the first is reported on later, and the prune
      stops at it. */
  lemma {:induction false} ExpiredOutlives<K, O>(c: Config, a: K, b: K, early: O, late: O) returns (g: Guard<K, O>)
    requires a != b && c.maxEntries >= 2 && c.ttl >= 1
    ensures g == Next(c, Next(c, Next(c, Guard(map[], []), TryAdmit(a, 0, early)), TryAdmit(b, 0, early)), SetOutcome(a, 1, late))
    ensures b in g.entries && Expired(c, g.entries[b], c.ttl + 1) && b in Prune(c, g, c.ttl + 1).entries
  {
    var g1, g2 := Guard(map[a := Entry(0, early)], [a]), Guard(map[a := Entry(0, early), b := Entry(0, early)], [a, b]);
    g := Guard(map[a := Entry(1, late), b := Entry(0, early)], [a, b]);
    var g0: Guard<K, O> := Guard(map[], []);
    PruneStays(c, g0, 0);
    PruneStays(c, g1, 0);
    assert g2.entries.Keys == {a, b};
    PruneStays(c, g2, 1);
    assert g2.entries[a := Entry(1, late)] == g.entries;
    assert g.entries.Keys == {a, b};
    PruneStays(c, g, c.ttl + 1);
  }

  lemma PruneStays<K, O>(c: Config, g: Guard<K, O>, now: nat)
    requires g.order == [] || (g.order[0] in g.entries && !Expired(c, g.entries[g.order[0]], now))
    requires |g.entries| <= c.maxEntries
    ensures Prune(c, g, now) == g
  {
  }

  // ---- what first in, first out gives ----

  lemma PruneIsPop<K, O>(c: Config, g: Guard<K, O>, now: nat) returns (n: nat)
    requires Wf(g)
    ensures n <= |g.order| && Prune(c, g, now) == PopN(g, n)
    ensures Wf(Prune(c, g, now)) && Prune(c, g, now).order == g.order[n..]
  {
    n := PopExpiredIs(c, g, now);
    PruneIsPopN(c, g, now, n);
    n := if |g.order| - n > c.maxEntries then |g.order| - c.maxEntries else n;
    PopNKeeps(g, n, 0);
  }

  /** What a prune keeps of the queue behind a name it keeps. */
  lemma {:induction false} PruneKeepsBehind<K, O>(c: Config, g: Guard<K, O>, now: nat, p: nat) returns (q: nat)
    requires Wf(g) && p < |g.order| && g.order[p] in Prune(c, g, now).entries
    ensures var g' := Prune(c, g, now);
            Wf(g') && q < |g'.order| && g'.order[q] == g.order[p] && g'.order[q + 1..] == g.order[p + 1..]
  {
    var n := PruneIsPop(c, g, now);
    PopNKeeps(g, n, p);
    q := p - n;
  }

  function NewName<K, O>(c: Config, g: Guard<K, O>, a: Act<K, O>): seq<K> {
    if a.TryAdmit? && a.key !in Prune(c, g, a.now).entries then [a.key] else []
  }

  lemma SnocBehind<K>(order: seq<K>, q: nat, k: K)
    requires q < |order|
    ensures (order + [k])[q] == order[q] && (order + [k])[q + 1..] == order[q + 1..] + [k]
  {
  }

  lemma {:induction false} AdmitKeepsBehind<K, O>(c: Config, g: Guard<K, O>, a: Act<K, O>, p: nat) returns (q: nat)
    requires Wf(g) && Admits(c, g, a) && p < |g.order| && a.key != g.order[p]
    requires g.order[p] in Admitted(c, g, a).entries
    ensures var g' := Admitted(c, g, a);
            q < |g'.order| && g'.order[q] == g.order[p] && g'.order[q + 1..] == g.order[p + 1..] + [a.key]
  {
    var g1 := Prune(c, g, a.now);
    assert c.pruneAgain ==> Kept(Prune(c, g1, a.now), g1) by {
      PruneWf(c, g, a.now);
      WfMeans(g1);
      PruneSound(c, g1, a.now);
    }
    q := PruneKeepsBehind(c, g, a.now, p);
    if c.pruneAgain {
      q := PruneKeepsBehind(c, g1, a.now, q);
      SnocBehind(Prune(c, g1, a.now).order, q, a.key);
    } else {
      SnocBehind(g1.order, q, a.key);
    }
  }

  /** A step that does not lose a mark leaves the queue behind it as it was, but for the name it admits. */
  lemma {:induction false} StepKeepsBehind<K, O>(c: Config, g: Guard<K, O>, a: Act<K, O>, p: nat) returns (q: nat)
    requires Wf(g) && !a.Remove? && p < |g.order| && g.order[p] in g.entries && !Loses(c, g, a, g.order[p])
    ensures var g' := Next(c, g, a);
            && q < |g'.order| && g'.order[q] == g.order[p]
            && g'.order[q + 1..] == g.order[p + 1..] + NewName(c, g, a)
  {
    if Admits(c, g, a) {
      q := AdmitKeepsBehind(c, g, a, p);
    } else {
      q := PruneKeepsBehind(c, g, a.now, p);
      assert g.order[p + 1..] + [] == g.order[p + 1..];
    }
  }

  /** The name each step admits, if any. */
  ghost function NewNames<K, O>(c: Config, gs: seq<Guard<K, O>>, acts: seq<Act<K, O>>): (names: seq<seq<K>>)
    requires |gs| == |acts| + 1
    ensures |names| == |acts|
  {
    seq(|acts|, n requires 0 <= n < |acts| => NewName(c, gs[n], acts[n]))
  }

  /** Those from step `i` up to step `j`, in order. */
  function Between<K>(names: seq<seq<K>>, i: nat, j: nat): seq<K>
    requires i <= j <= |names|
  {
    if i == j then [] else Between(names, i, j - 1) + names[j - 1]
  }

  lemma {:induction false} AdmitGoesLast<K, O>(c: Config, gs: seq<Guard<K, O>>, acts: seq<Act<K, O>>, i: nat) returns (p: nat)
    requires i < |acts| && |gs| == |acts| + 1 && Follows(c, gs, acts, i) && Admits(c, gs[i], acts[i])
    ensures p < |gs[i + 1].order| && gs[i + 1].order[p] == acts[i].key && gs[i + 1].order[p + 1..] == []
  {
    p := |gs[i + 1].order| - 1;
  }

  lemma {:induction false} FollowKeepsBehind<K, O>(c: Config, gs: seq<Guard<K, O>>, acts: seq<Act<K, O>>, i: nat, p: nat)
    returns (q: nat)
    requires i < |acts| && |gs| == |acts| + 1 && Follows(c, gs, acts, i) && Wf(gs[i]) && !acts[i].Remove?
    requires p < |gs[i].order| && gs[i].order[p] in gs[i].entries && !Loses(c, gs[i], acts[i], gs[i].order[p])
    ensures q < |gs[i + 1].order| && gs[i + 1].order[q] == gs[i].order[p] && gs[i].order[p] in gs[i + 1].entries
    ensures gs[i + 1].order[q + 1..] == gs[i].order[p + 1..] + NewName(c, gs[i], acts[i])
  {
    q := StepKeepsBehind(c, gs[i], acts[i], p);
  }

  ghost predicate BehindIs<K, O>(g: Guard<K, O>, k: K, names: seq<K>, p: nat) {
    p < |g.order| && g.order[p] == k && k in g.entries && g.order[p + 1..] == names
  }

  ghost predicate HasBehind<K, O>(g: Guard<K, O>, k: K, names: seq<K>) {
    exists p :: BehindIs(g, k, names, p)
  }

  lemma {:induction false} BehindStarts<K, O>(c: Config, gs: seq<Guard<K, O>>, acts: seq<Act<K, O>>, i: nat)
    requires Run(c, gs, acts) && i < |acts| && Admits(c, gs[i], acts[i])
    ensures HasBehind(gs[i + 1], acts[i].key, [])
  {
    assert Follows(c, gs, acts, i);
    AdmittedIsHeld(c, gs, acts, i);
    var p := AdmitGoesLast(c, gs, acts, i);
    assert BehindIs(gs[i + 1], acts[i].key, [], p);
  }

  lemma {:induction false} BehindStays<K, O>(c: Config, gs: seq<Guard<K, O>>, acts: seq<Act<K, O>>, m: nat, k: K, names: seq<K>)
    requires Run(c, gs, acts) && Wf(gs[0]) && NoRemovals(acts) && m < |acts|
    requires HasBehind(gs[m], k, names) && !Loses(c, gs[m], acts[m], k)
    ensures HasBehind(gs[m + 1], k, names + NewName(c, gs[m], acts[m]))
  {
    var p :| BehindIs(gs[m], k, names, p);
    assert Follows(c, gs, acts, m);
    RunWf(c, gs, acts, m);
    var q := FollowKeepsBehind(c, gs, acts, m, p);
    assert BehindIs(gs[m + 1], k, names + NewName(c, gs[m], acts[m]), q);
  }

  ghost predicate Named<K, O>(c: Config, gs: seq<Guard<K, O>>, acts: seq<Act<K, O>>, names: seq<seq<K>>, n: nat)
    requires n < |acts| && |gs| == |acts| + 1 && |names| == |acts|
  {
    names[n] == NewName(c, gs[n], acts[n])
  }

  ghost predicate AllNamed<K, O>(c: Config, gs: seq<Guard<K, O>>, acts: seq<Act<K, O>>, names: seq<seq<K>>)
    requires |gs| == |acts| + 1
  {
    |names| == |acts| && forall n :: 0 <= n < |acts| ==> Named(c, gs, acts, names, n)
  }

  /** A mark is held, and behind it in the queue is exactly what was admitted since, until a step loses it. */
  lemma {:induction false} BehindIsNewer<K, O>(
    c: Config, gs: seq<Guard<K, O>>, acts: seq<Act<K, O>>, names: seq<seq<K>>, from: nat, m: nat, j: nat, k: K) returns (n: nat)
    requires Run(c, gs, acts) && Wf(gs[0]) && NoRemovals(acts) && AllNamed(c, gs, acts, names) && from <= m <= j <= |acts|
    requires HasBehind(gs[m], k, Between(names, from, m))
    ensures m <= n <= j && HasBehind(gs[n], k, Between(names, from, n))
    ensures n == j || Loses(c, gs[n], acts[n], k)
    decreases j - m
  {
    n := m;
    if m < j && !Loses(c, gs[m], acts[m], k) {
      BehindStays(c, gs, acts, m, k, Between(names, from, m));
      assert Named(c, gs, acts, names, m);
      n := BehindIsNewer(c, gs, acts, names, from, m + 1, j, k);
    }
  }

  /** An unexpired mark is lost to crowding only, which takes `maxEntries` names queued behind it. */
  lemma {:induction false} CrowdedOut<K, O>(c: Config, g: Guard<K, O>, a: Act<K, O>, p: nat)
    requires Wf(g) && !a.Remove? && p < |g.order| && g.order[p] in g.entries && Loses(c, g, a, g.order[p])
    requires !Expired(c, g.entries[g.order[p]], a.now)
    ensures |g.order[p + 1..]| >= c.maxEntries
  {
    var k, g1 := g.order[p], Prune(c, g, a.now);
    PruneKeepsIff(c, g, a.now, p);
    if k in g1.entries {
      WfMeans(g);
      PruneSound(c, g, a.now);
      assert Admits(c, g, a) && c.pruneAgain && k !in Prune(c, g1, a.now).entries;
      var q := PruneKeepsBehind(c, g, a.now, p);
      WfMeans(g1);
      PruneKeepsIff(c, g1, a.now, q);
    }
  }

  lemma {:induction false} CrowdedByNewer<K, O>(c: Config, g: Guard<K, O>, a: Act<K, O>, k: K, names: seq<K>)
    requires Wf(g) && !a.Remove? && HasBehind(g, k, names) && k in g.entries && Loses(c, g, a, k)
    ensures Expired(c, g.entries[k], a.now) || Crowd(c, k, names)
  {
    var p :| BehindIs(g, k, names, p);
    if !Expired(c, g.entries[k], a.now) {
      CrowdedOut(c, g, a, p);
      WfMeans(g);
    }
  }

  /** At least `maxEntries` names, pairwise different and none of them `k`. */
  ghost predicate Crowd<K>(c: Config, k: K, names: seq<K>) {
    |names| >= c.maxEntries && Distinct(names) && k !in names
  }

  lemma NewNamesAre<K, O>(c: Config, gs: seq<Guard<K, O>>, acts: seq<Act<K, O>>)
    requires |gs| == |acts| + 1
    ensures AllNamed(c, gs, acts, NewNames(c, gs, acts))
  {
  }

  /** Between two admissions of a key its mark expired, or at least `maxEntries` pairwise different other keys were
      admitted while it was held. */
  lemma {:induction false} HeldAgainstNewer<K, O>(c: Config, gs: seq<Guard<K, O>>, acts: seq<Act<K, O>>, i: nat, j: nat, k: K)
    returns (m: nat)
    requires AdmitTwice(c, gs, acts, i, j, k) && Wf(gs[0]) && NoRemovals(acts)
    ensures i < m <= j && Loses(c, gs[m], acts[m], k)
    ensures Expired(c, gs[m].entries[k], acts[m].now) || Crowd(c, k, Between(NewNames(c, gs, acts), i + 1, m))
  {
    var names := NewNames(c, gs, acts);
    NewNamesAre(c, gs, acts);
    BehindStarts(c, gs, acts, i);
    m := BehindIsNewer(c, gs, acts, names, i + 1, i + 1, j, k);
    LostForReason(c, gs, acts, m, k);
    RunWf(c, gs, acts, m);
    CrowdedByNewer(c, gs[m], acts[m], k, Between(names, i + 1, m));
  }

  /** As the share handler sets the guard up: a share is handled afresh only more than 180 seconds after it was last
      admitted (but for twice the lag between clock and lock), or after 50 000 admissions of pairwise different other
      shares. */
  lemma {:induction false} HandledOncePerWindow<K>(gs: seq<Guard<K, Outcome>>, acts: seq<Act<K, Outcome>>, lag: nat, i: nat, j: nat, k: K)
    returns (m: nat)
    requires AdmitTwice(HANDLER_CONFIG, gs, acts, i, j, k) && Wf(gs[0]) && NoRemovals(acts) && WithinLag(acts, lag)
    ensures i < m <= j && Loses(HANDLER_CONFIG, gs[m], acts[m], k)
    ensures || acts[j].now + 2 * lag > acts[i].now + 180_000_000_000
            || var names := Between(NewNames(HANDLER_CONFIG, gs, acts), i + 1, m);
               |names| >= 50_000 && Distinct(names) && k !in names
  {
    m := HeldAgainstNewer(HANDLER_CONFIG, gs, acts, i, j, k);
    if Expired(HANDLER_CONFIG, gs[m].entries[k], acts[m].now) {
      ExpiryPutsApart(HANDLER_CONFIG, gs, acts, lag, i, m, j, k);
    }
  }

  /** And a share at the front of the queue is handled afresh from the first moment past 180 seconds on. */
  lemma HandledAfterWindow<K>(g: Guard<K, Outcome>, now: nat)
    requires Wf(g) && g.order != [] && |g.order| <= 50_000
    ensures g.order[0] in g.entries
    ensures Admits(HANDLER_CONFIG, g, TryAdmit(g.order[0], now, InFlight)) <==> now > g.entries[g.order[0]].ts + 180_000_000_000
  {
    WfMeans(g);
    FrontExpiresIff(HANDLER_CONFIG, g, now, InFlight);
  }

  class DuplicateSubmitGuard<K(==)> {
    const ttl: nat
    const maxEntries: nat
    var entries: map<K, Entry<Outcome>>
    var order: seq<K>

    ghost function Spec(): Config {
      Config(ttl, maxEntries, true)
    }

    ghost function Abs(): Guard<K, Outcome>
      reads this
    {
      Guard(entries, order)
    }

    constructor (ttl: nat, maxEntries: nat)
      ensures Spec() == Config(ttl, maxEntries, true) && Wf(Abs()) && entries == map[]
    {
      this.ttl := ttl;
      this.maxEntries := maxEntries;
      entries := map[];
      order := [];
    }

    method Prune(now: nat)
      modifies this
      ensures Abs() == GuardModel.Prune(Spec(), old(Abs()), now)
    {
      while order != []
        invariant PopExpired(Spec(), Abs(), now) == PopExpired(Spec(), old(Abs()), now)
        decreases |order|
      {
        var front := order[0];
        if front in entries && !(Since(now, entries[front].ts) > ttl) {
          break;
        }
        order := order[1..];
        entries := entries - {front};
      }
      while |entries| > maxEntries
        invariant PopExcess(Spec(), Abs()) == GuardModel.Prune(Spec(), old(Abs()), now)
        decreases |order|
      {
        if order == [] {
          break;
        }
        var key := order[0];
        order := order[1..];
        entries := entries - {key};
      }
    }

    method Get(key: K, now: nat) returns (held: Option<Outcome>)
      modifies this
      ensures Abs() == GuardModel.Prune(Spec(), old(Abs()), now)
      ensures held == if key in entries then Some(entries[key].outcome) else None
    {
      Prune(now);
      held := if key in entries then Some(entries[key].outcome) else None;
    }

    method InsertInflight(key: K, now: nat)
      modifies this
      ensures var g := GuardModel.Prune(Spec(), old(Abs()), now);
              Abs() == if key in g.entries then g else Insert(g, key, Entry(now, InFlight))
    {
      Prune(now);
      if key in entries {
        return;
      }
      entries := entries[key := Entry(now, InFlight)];
      order := order + [key];
    }

    method SetOutcome(key: K, now: nat, outcome: Outcome)
      modifies this
      ensures Abs() == Next(Spec(), old(Abs()), Act.SetOutcome(key, now, outcome))
    {
      Prune(now);
      if key in entries {
        entries := entries[key := Entry(now, outcome)];
      }
    }

    /** The section `handle_submit` runs under the lock: a held key reports its outcome and changes nothing,
        a new one is admitted in flight. */
    method TryAdmit(key: K, now: nat) returns (held: Option<Outcome>)
      requires Wf(Abs())
      modifies this
      ensures Wf(Abs()) && Abs() == Next(Spec(), old(Abs()), Act.TryAdmit(key, now, InFlight))
      ensures held == None <==> Admits(Spec(), old(Abs()), Act.TryAdmit(key, now, InFlight))
      ensures held.Some? ==> key in old(entries) && held.value == old(entries)[key].outcome
      ensures held.Some? ==> key in entries && held.value == entries[key].outcome
    {
      ghost var act: Act<K, Outcome> := Act.TryAdmit(key, now, InFlight);
      WfMeans(Abs());
      PruneSound(Spec(), Abs(), now);
      StepWf(Spec(), Abs(), act);
      held := Get(key, now);
      if held == None {
        PruneWf(Spec(), old(Abs()), now);
        WfMeans(Abs());
        PruneSound(Spec(), Abs(), now);
        InsertInflight(key, now);
      }
    }
  }
}
