/** What the two replay guards of the bridge have in common: entries with a timestamp, a queue of their keys,
    and a `prune` that pops the queue first by age and then by count. `DuplicateSubmitGuard`
    (`bridge/src/share_handler.rs`) and `BlockSubmitGuard` (`bridge/src/kaspaapi.rs`) are instances. */
module GuardModel {
  import opened KeySpace

  datatype Entry<O> = Entry(ts: nat, outcome: O)

  datatype Guard<K, O> = Guard(entries: map<K, Entry<O>>, order: seq<K>)

  /** `pruneAgain`: admission prunes once for the lookup and once more for the insertion. */
  datatype Config = Config(ttl: nat, maxEntries: nat, pruneAgain: bool)

  /** `Instant::duration_since`, which is zero for a later instant: the clock is read before the lock is
      taken, so a step may come with an older time than the one before it. */
  function Since(now: nat, ts: nat): nat {
    if now >= ts then now - ts else 0
  }

  predicate Expired<O>(c: Config, e: Entry<O>, now: nat) {
    Since(now, e.ts) > c.ttl
  }

  function Pop<K, O>(g: Guard<K, O>): Guard<K, O>
    requires g.order != []
  {
    Guard(g.entries - {g.order[0]}, g.order[1..])
  }

  /** The first loop of `prune`: names without an entry and expired entries leave the front. */
  function PopExpired<K, O>(c: Config, g: Guard<K, O>, now: nat): Guard<K, O>
    decreases |g.order|
  {
    if g.order == [] || (g.order[0] in g.entries && !Expired(c, g.entries[g.order[0]], now)) then g
    else PopExpired(c, Pop(g), now)
  }

  /** The second loop: the front leaves while there are too many entries. */
  function PopExcess<K, O>(c: Config, g: Guard<K, O>): Guard<K, O>
    decreases |g.order|
  {
    if |g.entries| <= c.maxEntries || g.order == [] then g else PopExcess(c, Pop(g))
  }

  function Prune<K, O>(c: Config, g: Guard<K, O>, now: nat): Guard<K, O> {
    PopExcess(c, PopExpired(c, g, now))
  }

  /** Every entry can still be reached from the queue. */
  ghost predicate Live<K, O>(g: Guard<K, O>) {
    forall k :: k in g.entries ==> k in g.order
  }

  ghost predicate Kept<K, O>(g': Guard<K, O>, g: Guard<K, O>) {
    forall k :: k in g'.entries ==> k in g.entries && g'.entries[k] == g.entries[k]
  }

  lemma PopLive<K, O>(g: Guard<K, O>)
    requires Live(g) && g.order != []
    ensures Live(Pop(g)) && Kept(Pop(g), g)
  {
    assert g.order == [g.order[0]] + g.order[1..];
  }

  /** The age loop drops no entry that has not expired. */
  lemma {:induction false} PopExpiredSound<K, O>(c: Config, g: Guard<K, O>, now: nat)
    requires Live(g)
    ensures var g' := PopExpired(c, g, now);
            && Live(g') && Kept(g', g)
            && forall k :: k in g.entries && k !in g'.entries ==> Expired(c, g.entries[k], now)
    decreases |g.order|
  {
    if !(g.order == [] || (g.order[0] in g.entries && !Expired(c, g.entries[g.order[0]], now))) {
      PopLive(g);
      PopExpiredSound(c, Pop(g), now);
    }
  }

  /** The count loop ends within the bound, whatever stale or repeated names are in the queue, and drops
      nothing unless there were too many entries. */
  lemma {:induction false} PopExcessSound<K, O>(c: Config, g: Guard<K, O>)
    requires Live(g)
    ensures var g' := PopExcess(c, g);
            && Live(g') && Kept(g', g) && |g'.entries| <= c.maxEntries
            && (|g.entries| <= c.maxEntries ==> g' == g)
    decreases |g.order|
  {
    if g.order == [] {
      assert g.entries == map[];
    } else if |g.entries| > c.maxEntries {
      PopLive(g);
      PopExcessSound(c, Pop(g));
    }
  }

  /** Why `prune` may drop an entry: it expired, or there were too many. */
  lemma PruneSound<K, O>(c: Config, g: Guard<K, O>, now: nat)
    requires Live(g)
    ensures var g' := Prune(c, g, now);
            && Live(g') && Kept(g', g) && |g'.entries| <= c.maxEntries
            && forall k :: k in g.entries && k !in g'.entries ==> Expired(c, g.entries[k], now) || |g.entries| > c.maxEntries
  {
    PopExpiredSound(c, g, now);
    PopExcessSound(c, PopExpired(c, g, now));
    KeptCount(PopExpired(c, g, now), g);
  }

  lemma KeptCount<K, O>(g': Guard<K, O>, g: Guard<K, O>)
    requires Kept(g', g)
    ensures |g'.entries| <= |g.entries|
  {
    SubsetCount(g'.entries.Keys, g.entries.Keys);
  }

  // ---- the locked sections ----

  datatype Act<K, O> =
    | TryAdmit(key: K, now: nat, outcome: O)
    | SetOutcome(key: K, now: nat, outcome: O)
    | Remove(key: K, now: nat)

  function Insert<K, O>(g: Guard<K, O>, k: K, e: Entry<O>): Guard<K, O> {
    Guard(g.entries[k := e], g.order + [k])
  }

  /** The guard as admission leaves it when the key was not held. */
  function Admitted<K, O>(c: Config, g: Guard<K, O>, a: Act<K, O>): Guard<K, O>
    requires a.TryAdmit?
  {
    var g1 := Prune(c, g, a.now);
    Insert(if c.pruneAgain then Prune(c, g1, a.now) else g1, a.key, Entry(a.now, a.outcome))
  }

  ghost predicate Admits<K, O>(c: Config, g: Guard<K, O>, a: Act<K, O>) {
    a.TryAdmit? && a.key !in Prune(c, g, a.now).entries
  }

  function Next<K, O>(c: Config, g: Guard<K, O>, a: Act<K, O>): Guard<K, O> {
    var g1 := Prune(c, g, a.now);
    match a
    case TryAdmit(k, now, o) => if k in g1.entries then g1 else Admitted(c, g, a)
    case SetOutcome(k, now, o) => if k in g1.entries then Guard(g1.entries[k := Entry(now, o)], g1.order) else g1
    case Remove(k, _) => Guard(g1.entries - {k}, g1.order)
  }

  /** Step `a` loses the mark of `k`: it is gone afterwards, or was gone and is made anew. */
  ghost predicate Loses<K, O>(c: Config, g: Guard<K, O>, a: Act<K, O>, k: K) {
    k in g.entries && (k !in Next(c, g, a).entries || (Admits(c, g, a) && a.key == k))
  }

  /** What a mark can be lost for: it is removed, has expired, or there are too many. */
  predicate Reason<K(==), O>(c: Config, g: Guard<K, O>, a: Act<K, O>, k: K)
    requires k in g.entries
  {
    (a.Remove? && a.key == k) || Expired(c, g.entries[k], a.now) || |g.entries| > c.maxEntries
  }

  /** Every locked section keeps all entries reachable and the count within one of the bound, and drops a mark
      only by removing it, by age, or by count. */
  lemma StepSound<K, O>(c: Config, g: Guard<K, O>, a: Act<K, O>, k: K)
    requires Live(g)
    ensures Live(Next(c, g, a)) && |Next(c, g, a).entries| <= c.maxEntries + 1
    ensures Loses(c, g, a, k) ==> Reason(c, g, a, k)
  {
    var g1 := Prune(c, g, a.now);
    PruneSound(c, g, a.now);
    if Admits(c, g, a) {
      var g2 := if c.pruneAgain then Prune(c, g1, a.now) else g1;
      PruneSound(c, g1, a.now);
      InsertLive(g2, a.key, Entry(a.now, a.outcome));
      assert |g2.entries| <= c.maxEntries;
    } else if a.SetOutcome? && a.key in g1.entries {
      assert (g1.entries[a.key := Entry(a.now, a.outcome)]).Keys == g1.entries.Keys;
    } else if a.Remove? {
      KeptCount(Guard(g1.entries - {a.key}, g1.order), g1);
    }
  }

  lemma InsertLive<K, O>(g: Guard<K, O>, k: K, e: Entry<O>)
    requires Live(g) && k !in g.entries
    ensures Live(Insert(g, k, e)) && |Insert(g, k, e).entries| == |g.entries| + 1
  {
    assert g.entries[k := e].Keys == g.entries.Keys + {k};
  }

  /** Entries come from nowhere but the step's own key. */
  lemma StepEntries<K, O>(c: Config, g: Guard<K, O>, a: Act<K, O>, k: K)
    requires Live(g) && k in Next(c, g, a).entries
    ensures if k == a.key && (a.SetOutcome? || Admits(c, g, a)) then Next(c, g, a).entries[k] == Entry(a.now, a.outcome)
            else k in g.entries && Next(c, g, a).entries[k] == g.entries[k]
  {
    PruneSound(c, g, a.now);
    if Admits(c, g, a) {
      PruneSound(c, Prune(c, g, a.now), a.now);
    }
  }

  /** The front mark goes if and only if it is older than the time to live, and then its key is admitted again; within the
      bound on entries nothing else takes it away. */
  lemma FrontExpiresIff<K, O>(c: Config, g: Guard<K, O>, now: nat, o: O)
    requires Live(g) && g.order != [] && g.order[0] in g.entries && |g.entries| <= c.maxEntries
    ensures var k := g.order[0];
            && (Admits(c, g, TryAdmit(k, now, o)) <==> now > g.entries[k].ts + c.ttl)
            && (k in Prune(c, g, now).entries <==> now <= g.entries[k].ts + c.ttl)
  {
    if Expired(c, g.entries[g.order[0]], now) {
      PopLive(g);
      PruneSound(c, Pop(g), now);
    }
  }

  // ---- whole runs ----

  ghost predicate Follows<K, O>(c: Config, gs: seq<Guard<K, O>>, acts: seq<Act<K, O>>, i: nat)
    requires i < |acts| && |gs| == |acts| + 1
  {
    gs[i + 1] == Next(c, gs[i], acts[i])
  }

  ghost predicate Run<K, O>(c: Config, gs: seq<Guard<K, O>>, acts: seq<Act<K, O>>) {
    && |gs| == |acts| + 1 && Live(gs[0])
    && forall i :: 0 <= i < |acts| ==> Follows(c, gs, acts, i)
  }

  lemma {:induction false} RunLive<K, O>(c: Config, gs: seq<Guard<K, O>>, acts: seq<Act<K, O>>, i: nat)
    requires Run(c, gs, acts) && i <= |acts|
    ensures Live(gs[i])
    ensures i > 0 ==> |gs[i].entries| <= c.maxEntries + 1
  {
    if i > 0 {
      RunLive(c, gs, acts, i - 1);
      StepSound(c, gs[i - 1], acts[i - 1], acts[i - 1].key);
      assert Follows(c, gs, acts, i - 1);
    }
  }

  /** The mark of `k` is held from `i` on and no step up to `m` loses it. */
  ghost predicate HeldFrom<K, O>(c: Config, gs: seq<Guard<K, O>>, acts: seq<Act<K, O>>, i: nat, m: nat, k: K)
    requires i <= m < |gs| && |gs| == |acts| + 1
    decreases m
  {
    k in gs[m].entries && (i < m ==> HeldFrom(c, gs, acts, i, m - 1, k) && !Loses(c, gs[m - 1], acts[m - 1], k))
  }

  lemma {:induction false} NotLostIsHeld<K, O>(c: Config, gs: seq<Guard<K, O>>, acts: seq<Act<K, O>>, m: nat, k: K)
    requires Run(c, gs, acts) && m < |acts| && k in gs[m].entries && !Loses(c, gs[m], acts[m], k)
    ensures k in gs[m + 1].entries
  {
    assert Follows(c, gs, acts, m);
  }

  /** A mark stays until the first step that loses it. */
  lemma {:induction false} HeldUntilLost<K, O>(c: Config, gs: seq<Guard<K, O>>, acts: seq<Act<K, O>>, i: nat, j: nat, k: K)
    returns (m: nat)
    requires Run(c, gs, acts) && i <= j <= |acts| && k in gs[i].entries
    ensures i <= m <= j && HeldFrom(c, gs, acts, i, m, k)
    ensures m == j || Loses(c, gs[m], acts[m], k)
  {
    m := i;
    if i < j {
      m := HeldUntilLost(c, gs, acts, i, j - 1, k);
      if m == j - 1 && !Loses(c, gs[m], acts[m], k) {
        NotLostIsHeld(c, gs, acts, m, k);
        m := j;
      }
    }
  }

  lemma {:induction false} AdmittedIsHeld<K, O>(c: Config, gs: seq<Guard<K, O>>, acts: seq<Act<K, O>>, i: nat)
    requires Run(c, gs, acts) && i < |acts| && Admits(c, gs[i], acts[i])
    ensures acts[i].key in gs[i + 1].entries
  {
    assert Follows(c, gs, acts, i);
  }

  lemma {:induction false} LostForReason<K, O>(c: Config, gs: seq<Guard<K, O>>, acts: seq<Act<K, O>>, m: nat, k: K)
    requires Run(c, gs, acts) && m < |acts| && k in gs[m].entries
    requires Loses(c, gs[m], acts[m], k) || (Admits(c, gs[m], acts[m]) && acts[m].key == k)
    ensures Loses(c, gs[m], acts[m], k) && Reason(c, gs[m], acts[m], k)
  {
    RunLive(c, gs, acts, m);
    StepSound(c, gs[m], acts[m], k);
  }

  /** Two steps that both admit one key. */
  ghost predicate AdmitTwice<K, O>(c: Config, gs: seq<Guard<K, O>>, acts: seq<Act<K, O>>, i: nat, j: nat, k: K) {
    && Run(c, gs, acts) && i < j < |acts|
    && acts[i].key == k && Admits(c, gs[i], acts[i])
    && acts[j].key == k && Admits(c, gs[j], acts[j])
  }

  /** On every interleaving of locked sections: between two admissions of one key its mark is held until a step that
      loses it, for one of the three reasons. */
  lemma {:induction false} AdmissionsSeparated<K, O>(c: Config, gs: seq<Guard<K, O>>, acts: seq<Act<K, O>>, i: nat, j: nat, k: K)
    returns (m: nat)
    requires AdmitTwice(c, gs, acts, i, j, k)
    ensures i < m <= j && HeldFrom(c, gs, acts, i + 1, m, k)
    ensures Loses(c, gs[m], acts[m], k) && Reason(c, gs[m], acts[m], k)
  {
    AdmittedIsHeld(c, gs, acts, i);
    m := HeldUntilLost(c, gs, acts, i + 1, j, k);
    LostForReason(c, gs, acts, m, k);
  }

  /** Times of steps are read ahead of the lock, but never more than `lag` ahead of another step's. */
  ghost predicate WithinLag<K, O>(acts: seq<Act<K, O>>, lag: nat) {
    forall i, j :: 0 <= i < j < |acts| ==> acts[i].now <= acts[j].now + lag
  }

  lemma {:induction false} RunEntries<K, O>(c: Config, gs: seq<Guard<K, O>>, acts: seq<Act<K, O>>, p: nat, k: K)
    requires Run(c, gs, acts) && p < |acts| && k in gs[p + 1].entries
    ensures || gs[p + 1].entries[k].ts == acts[p].now
            || (k in gs[p].entries && gs[p + 1].entries[k] == gs[p].entries[k])
    ensures acts[p].key == k && Admits(c, gs[p], acts[p]) ==> gs[p + 1].entries[k].ts == acts[p].now
  {
    RunLive(c, gs, acts, p);
    assert Follows(c, gs, acts, p);
    StepEntries(c, gs[p], acts[p], k);
  }

  /** A mark is never older, but for the lag, than an admission of its key before it. */
  lemma {:induction false} MarkNotOlder<K, O>(
    c: Config, gs: seq<Guard<K, O>>, acts: seq<Act<K, O>>, lag: nat, i: nat, m: nat, k: K)
    requires Run(c, gs, acts) && WithinLag(acts, lag) && i < m <= |acts|
    requires acts[i].key == k && Admits(c, gs[i], acts[i]) && k in gs[m].entries
    ensures gs[m].entries[k].ts + lag >= acts[i].now
  {
    var p := m - 1;
    RunEntries(c, gs, acts, p, k);
    if p > i && gs[m].entries[k].ts != acts[p].now {
      MarkNotOlder(c, gs, acts, lag, i, p, k);
    }
  }

  /** A mark that expired between two admissions of its key puts them more than the time to live apart, but for twice
      the lag; with a clock that never runs backwards there is no lag. */
  lemma {:induction false} ExpiryPutsApart<K, O>(
    c: Config, gs: seq<Guard<K, O>>, acts: seq<Act<K, O>>, lag: nat, i: nat, m: nat, j: nat, k: K)
    requires AdmitTwice(c, gs, acts, i, j, k) && WithinLag(acts, lag) && i < m <= j
    requires k in gs[m].entries && Expired(c, gs[m].entries[k], acts[m].now)
    ensures acts[j].now + 2 * lag > acts[i].now + c.ttl
  {
    MarkNotOlder(c, gs, acts, lag, i, m, k);
  }
}
