/** The built-in miner of `bridge/src/rkstratum_cpu_miner.rs`: one publisher of block templates and a number of
    threads, each walking its own nonces over the template it took last. Every access to the shared slot and every
    proof-of-work check is one step, and all of them interleave. */
module CpuMiner {
  import opened KeySpace
  import opened NonceWalk

  datatype Phase<W> = Waiting | Mining(work: W) | Checking(work: W) | Done

  /** `taken` counts the publications up to the one last taken, `steps` the failed checks; the thread itself holds
      only `last` and `nonce`. */
  datatype Thread<W> = Thread(phase: Phase<W>, last: nat, nonce: nat, taken: nat, steps: nat)

  /** A check of one nonce: for which publication, and how many there were by then. */
  datatype Test = Test(thread: nat, publication: nat, steps: nat, nonce: nat, seen: nat)

  datatype Found<W> = Found(thread: nat, publication: nat, work: W, nonce: nat)

  /** The shared slot, the threads, and what has been checked and submitted so far. */
  datatype State<W> = State(version: nat, work: Option<W>, publications: nat, stopped: bool, threads: seq<Thread<W>>,
                            tests: seq<Test>, found: seq<Found<W>>)

  datatype Event<W> = Publish(work: W) | Stop | Take(i: nat) | Try(i: nat) | Check(i: nat) | Exit(i: nat)

  predicate Enabled<W>(s: State<W>, e: Event<W>) {
    match e
    case Publish(_) => true
    case Stop => true
    case Take(i) => i < |s.threads| && s.threads[i].phase.Waiting? && s.version != s.threads[i].last
    case Try(i) => i < |s.threads| && s.threads[i].phase.Mining?
    case Check(i) => i < |s.threads| && s.threads[i].phase.Checking?
    case Exit(i) => i < |s.threads| && s.stopped
  }

  function Tried<W>(passes: (W, nat) -> bool, count: nat, t: Thread<W>): Thread<W>
    requires t.phase.Mining?
  {
    if passes(t.phase.work, t.nonce) then t.(phase := Waiting)
    else t.(phase := Checking(t.phase.work), nonce := (t.nonce + count) % WORD, steps := t.steps + 1)
  }

  function After<W>(passes: (W, nat) -> bool, s: State<W>, e: Event<W>): State<W>
    requires Enabled(s, e)
  {
    match e
    case Publish(w) => s.(version := (s.version + 1) % WORD, work := Some(w), publications := s.publications + 1)
    case Stop => s.(stopped := true)
    case Take(i) =>
      var t := s.threads[i].(last := s.version, taken := s.publications);
      s.(threads := s.threads[i := if s.work.Some? then t.(phase := Mining(s.work.value)) else t])
    case Try(i) =>
      var t := s.threads[i];
      s.(threads := s.threads[i := Tried(passes, |s.threads|, t)],
         tests := s.tests + [Test(i, t.taken, t.steps, t.nonce, s.publications)],
         found := s.found + if passes(t.phase.work, t.nonce) then [Found(i, t.taken, t.phase.work, t.nonce)] else [])
    case Check(i) =>
      var t := s.threads[i];
      s.(threads := s.threads[i := t.(phase := if s.version != t.last then Waiting else Mining(t.phase.work))])
    case Exit(i) => s.(threads := s.threads[i := s.threads[i].(phase := Done)])
  }

  function Started<W>(count: nat): State<W> {
    State(0, None, 0, false, seq(count, i requires 0 <= i => Thread(Waiting, 0, NonceAt(count, i, 0), 0, 0)), [], [])
  }

  ghost predicate SlotOk<W>(s: State<W>) {
    && s.version == s.publications % WORD
    && (s.work.Some? <==> s.publications > 0)
  }

  ghost predicate ThreadOk<W>(s: State<W>, i: nat, t: Thread<W>) {
    && t.taken <= s.publications
    && t.last == t.taken % WORD
    && t.nonce == NonceAt(|s.threads|, i, t.steps)
  }

  /** A test lies behind its thread: in an earlier publication, or at an earlier nonce. */
  ghost predicate TestBehind<W>(s: State<W>, x: Test) {
    && x.thread < |s.threads|
    && x.nonce == NonceAt(|s.threads|, x.thread, x.steps)
    && var t := s.threads[x.thread];
       && x.publication <= t.taken && x.steps <= t.steps
       && (t.phase.Mining? || t.phase.Checking? ==> x.publication < t.taken || x.steps < t.steps)
       && x.publication <= x.seen <= s.publications
       && (t.phase.Mining? && x.publication == t.taken && s.publications < WORD ==> x.seen == x.publication)
  }

  ghost predicate FoundBehind<W>(passes: (W, nat) -> bool, s: State<W>, f: Found<W>) {
    && f.thread < |s.threads|
    && passes(f.work, f.nonce)
    && var t := s.threads[f.thread];
       && f.publication <= t.taken
       && (t.phase.Mining? || t.phase.Checking? ==> f.publication < t.taken)
  }

  /** For one publication a thread's nonces only go forward. */
  ghost predicate Forward(tests: seq<Test>) {
    forall a, b :: 0 <= a < b < |tests| && tests[a].thread == tests[b].thread
                   && tests[a].publication == tests[b].publication ==>
      tests[a].steps < tests[b].steps
  }

  /** Only the last check a thread makes for a publication may come after the next publication. */
  ghost predicate StaleOnlyLast(tests: seq<Test>) {
    forall a, b :: 0 <= a < b < |tests| && tests[a].thread == tests[b].thread
                   && tests[a].publication == tests[b].publication ==>
      tests[a].seen == tests[a].publication
  }

  ghost predicate OnePerPublication<W>(found: seq<Found<W>>) {
    forall a, b :: 0 <= a < b < |found| && found[a].thread == found[b].thread ==>
      found[a].publication < found[b].publication
  }

  ghost predicate Inv<W>(passes: (W, nat) -> bool, s: State<W>) {
    && SlotOk(s)
    && (forall i :: 0 <= i < |s.threads| ==> ThreadOk(s, i, s.threads[i]))
    && (forall a :: 0 <= a < |s.tests| ==> TestBehind(s, s.tests[a]))
    && (forall a :: 0 <= a < |s.found| ==> FoundBehind(passes, s, s.found[a]))
    && Forward(s.tests)
    && (s.publications < WORD ==> StaleOnlyLast(s.tests))
    && OnePerPublication(s.found)
  }

  lemma NonceStep(count: nat, i: nat, steps: nat)
    ensures (NonceAt(count, i, steps) + count) % WORD == NonceAt(count, i, steps + 1)
  {
    var p := Position(count, i, steps);
    Distribute(steps, 1, count);
    ModOfSum(p + count, p % WORD + count, p / WORD);
  }

  lemma TakeKeeps<W>(passes: (W, nat) -> bool, s: State<W>, i: nat)
    requires Inv(passes, s) && Enabled(s, Take(i))
    ensures Inv(passes, After(passes, s, Take(i)))
  {
    assert s.threads[i].taken < s.publications;
  }

  lemma TryThreads<W>(passes: (W, nat) -> bool, s: State<W>, i: nat)
    requires Inv(passes, s) && Enabled(s, Try(i))
    ensures var s' := After(passes, s, Try(i));
            && SlotOk(s')
            && (forall j :: 0 <= j < |s'.threads| ==> ThreadOk(s', j, s'.threads[j]))
  {
    NonceStep(|s.threads|, i, s.threads[i].steps);
  }

  lemma TryBehind<W>(passes: (W, nat) -> bool, s: State<W>, i: nat)
    requires Inv(passes, s) && Enabled(s, Try(i))
    ensures var s' := After(passes, s, Try(i)); forall a :: 0 <= a < |s'.tests| ==> TestBehind(s', s'.tests[a])
  {
    assert ThreadOk(s, i, s.threads[i]);
    assert s.tests == After(passes, s, Try(i)).tests[..|s.tests|];
  }

  lemma TryForward<W>(passes: (W, nat) -> bool, s: State<W>, i: nat)
    requires Inv(passes, s) && Enabled(s, Try(i))
    ensures var s' := After(passes, s, Try(i));
            Forward(s'.tests) && (s'.publications < WORD ==> StaleOnlyLast(s'.tests))
  {
    assert s.tests == After(passes, s, Try(i)).tests[..|s.tests|];
  }

  lemma TryFound<W>(passes: (W, nat) -> bool, s: State<W>, i: nat)
    requires Inv(passes, s) && Enabled(s, Try(i))
    ensures var s' := After(passes, s, Try(i));
            && (forall a :: 0 <= a < |s'.found| ==> FoundBehind(passes, s', s'.found[a]))
            && OnePerPublication(s'.found)
  {
    assert s.found == After(passes, s, Try(i)).found[..|s.found|];
  }

  lemma SuccMod(n: nat)
    ensures (n % WORD + 1) % WORD == (n + 1) % WORD
  {
    ModOfSum(n + 1, n % WORD + 1, n / WORD);
  }

  lemma StopKeeps<W>(passes: (W, nat) -> bool, s: State<W>)
    requires Inv(passes, s)
    ensures Inv(passes, After(passes, s, Stop))
  {
  }

  lemma PublishKeeps<W>(passes: (W, nat) -> bool, s: State<W>, w: W)
    requires Inv(passes, s)
    ensures Inv(passes, After(passes, s, Publish(w)))
  {
    var s' := After(passes, s, Publish(w));
    SuccMod(s.publications);
    forall i | 0 <= i < |s.threads|
      ensures ThreadOk(s', i, s'.threads[i])
    {
      assert ThreadOk(s, i, s.threads[i]);
    }
    forall a | 0 <= a < |s.tests|
      ensures TestBehind(s', s'.tests[a])
    {
      assert TestBehind(s, s.tests[a]);
    }
  }

  lemma CheckTest<W>(passes: (W, nat) -> bool, s: State<W>, i: nat, x: Test)
    requires SlotOk(s) && Enabled(s, Check(i)) && ThreadOk(s, i, s.threads[i]) && TestBehind(s, x)
    ensures TestBehind(After(passes, s, Check(i)), x)
  {
    if s.publications < WORD && s.version == s.threads[i].last {
      assert s.publications == s.threads[i].taken;
    }
  }

  lemma CheckKeeps<W>(passes: (W, nat) -> bool, s: State<W>, i: nat)
    requires Inv(passes, s) && Enabled(s, Check(i))
    ensures Inv(passes, After(passes, s, Check(i)))
  {
    var s' := After(passes, s, Check(i));
    assert ThreadOk(s, i, s.threads[i]);
    forall a | 0 <= a < |s.tests|
      ensures TestBehind(s', s.tests[a])
    {
      CheckTest(passes, s, i, s.tests[a]);
    }
    forall a | 0 <= a < |s.found|
      ensures FoundBehind(passes, s', s.found[a])
    {
      assert FoundBehind(passes, s, s.found[a]);
    }
  }

  lemma ExitKeeps<W>(passes: (W, nat) -> bool, s: State<W>, i: nat)
    requires Inv(passes, s) && Enabled(s, Exit(i))
    ensures Inv(passes, After(passes, s, Exit(i)))
  {
  }

  lemma StepKeeps<W>(passes: (W, nat) -> bool, s: State<W>, e: Event<W>)
    requires Inv(passes, s) && Enabled(s, e)
    ensures Inv(passes, After(passes, s, e))
  {
    match e
    case Take(i) => TakeKeeps(passes, s, i);
    case Try(i) =>
      TryThreads(passes, s, i);
      TryBehind(passes, s, i);
      TryForward(passes, s, i);
      TryFound(passes, s, i);
    case Check(i) => CheckKeeps(passes, s, i);
    case Exit(i) => ExitKeeps(passes, s, i);
    case Stop => StopKeeps(passes, s);
    case Publish(w) => PublishKeeps(passes, s, w);
  }

  lemma StartKeeps<W>(passes: (W, nat) -> bool, count: nat)
    ensures Inv(passes, Started(count))
  {
  }

  ghost predicate Run<W(!new)>(passes: (W, nat) -> bool, count: nat, states: seq<State<W>>, events: seq<Event<W>>) {
    && |states| == |events| + 1
    && states[0] == Started(count)
    && (forall k :: 0 <= k < |events| ==>
          Enabled(states[k], events[k]) && states[k + 1] == After(passes, states[k], events[k]))
  }

  /** In every interleaving: each thread submits at most one block per publication, in order and only blocks that
      pass; a thread's nonces only go forward for one publication; and, until 2^64 publications, a thread makes at
      most one check for a publication once the next one is out. */
  lemma {:induction false} RunKeeps<W(!new)>(passes: (W, nat) -> bool, count: nat, states: seq<State<W>>,
                                             events: seq<Event<W>>, k: nat)
    requires Run(passes, count, states, events) && k < |states|
    ensures Inv(passes, states[k]) && |states[k].threads| == count
  {
    if k == 0 {
      StartKeeps(passes, count);
    } else {
      RunKeeps(passes, count, states, events, k - 1);
      StepKeeps(passes, states[k - 1], events[k - 1]);
    }
  }

  /** Before a nonce counter wraps. */
  ghost predicate Unwrapped<W>(s: State<W>) {
    forall i :: 0 <= i < |s.threads| ==> Position(|s.threads|, i, s.threads[i].steps) < WORD
  }

  lemma EarlierUnwrapped(count: nat, i: nat, m: nat, n: nat)
    requires m <= n && Position(count, i, n) < WORD
    ensures NonceAt(count, i, m) == Position(count, i, m)
  {
    assert m * count <= n * count;
  }

  /** Two checks of the same nonce are two checks of the same thread, with the same number of failures behind them,
      and for different publications: no work is done twice. Before counters wrap this holds for a thread count
      coprime to the spread. */
  lemma NoWorkTwice<W(!new)>(passes: (W, nat) -> bool, count: nat, states: seq<State<W>>, events: seq<Event<W>>,
                             k: nat, a: nat, b: nat)
    requires Run(passes, count, states, events) && k < |states|
    requires Coprime(count, SPREAD) && Unwrapped(states[k])
    requires a < b < |states[k].tests| && states[k].tests[a].nonce == states[k].tests[b].nonce
    ensures states[k].tests[a].thread == states[k].tests[b].thread
    ensures states[k].tests[a].publication != states[k].tests[b].publication
  {
    RunKeeps(passes, count, states, events, k);
    var s := states[k];
    var x, y := s.tests[a], s.tests[b];
    assert TestBehind(s, x) && TestBehind(s, y);
    EarlierUnwrapped(count, x.thread, x.steps, s.threads[x.thread].steps);
    EarlierUnwrapped(count, y.thread, y.steps, s.threads[y.thread].steps);
    PositionsDiffer(count, x.thread, x.steps, y.thread, y.steps);
  }

  /** A thread count that divides 2^64 keeps the threads' checks apart through any number of wraps. */
  lemma NoNonceShared<W(!new)>(passes: (W, nat) -> bool, count: nat, states: seq<State<W>>, events: seq<Event<W>>,
                               k: nat, a: nat, b: nat)
    requires Run(passes, count, states, events) && k < |states| && Divides(count, WORD)
    requires a < |states[k].tests| && b < |states[k].tests|
    requires states[k].tests[a].nonce == states[k].tests[b].nonce
    ensures states[k].tests[a].thread == states[k].tests[b].thread
  {
    RunKeeps(passes, count, states, events, k);
    var x, y := states[k].tests[a], states[k].tests[b];
    assert TestBehind(states[k], x) && TestBehind(states[k], y);
    NoncesDiffer(count, x.thread, x.steps, y.thread, y.steps);
  }

  // ---- which template is mined ----

  /** The templates published so far, in order. */
  function Published<W>(events: seq<Event<W>>): seq<W> {
    if events == [] then []
    else
      var e := events[|events| - 1];
      Published(events[..|events| - 1]) + if e.Publish? then [e.work] else []
  }

  /** `w` is the template of the `n`-th publication. */
  ghost predicate IsPublication<W>(all: seq<W>, n: nat, w: W) {
    1 <= n <= |all| && all[n - 1] == w
  }

  ghost predicate RightWork<W>(all: seq<W>, t: Thread<W>) {
    t.phase.Mining? || t.phase.Checking? ==> IsPublication(all, t.taken, t.phase.work)
  }

  /** The slot holds the latest template, each thread works on the one it is counted under, and so did each block found. */
  ghost predicate WorkOk<W>(all: seq<W>, s: State<W>) {
    && s.publications == |all|
    && s.work == (if all == [] then None else Some(all[|all| - 1]))
    && (forall i :: 0 <= i < |s.threads| ==> RightWork(all, s.threads[i]))
    && (forall a :: 0 <= a < |s.found| ==> IsPublication(all, s.found[a].publication, s.found[a].work))
  }

  lemma WorkStep<W>(passes: (W, nat) -> bool, all: seq<W>, s: State<W>, e: Event<W>)
    requires WorkOk(all, s) && Enabled(s, e)
    ensures WorkOk(all + if e.Publish? then [e.work] else [], After(passes, s, e))
  {
    var all', s' := all + if e.Publish? then [e.work] else [], After(passes, s, e);
    forall i | 0 <= i < |s'.threads|
      ensures RightWork(all', s'.threads[i])
    {
      assert RightWork(all, s.threads[i]);
    }
    forall a | 0 <= a < |s'.found|
      ensures IsPublication(all', s'.found[a].publication, s'.found[a].work)
    {
      assert a < |s.found| ==> IsPublication(all, s.found[a].publication, s.found[a].work);
      assert e.Try? ==> RightWork(all, s.threads[e.i]);
    }
  }

  /** On every run a thread mines, and submits a block for, the very template of the publication it is counted under; the
      slot holds the latest one. */
  lemma {:induction false} MinesWhatWasPublished<W(!new)>(passes: (W, nat) -> bool, count: nat, states: seq<State<W>>,
                                                         events: seq<Event<W>>, k: nat)
    requires Run(passes, count, states, events) && k < |states|
    ensures WorkOk(Published(events[..k]), states[k])
  {
    if k > 0 {
      MinesWhatWasPublished(passes, count, states, events, k - 1);
      WorkStep(passes, Published(events[..k - 1]), states[k - 1], events[k - 1]);
      assert events[..k][..k - 1] == events[..k - 1];
    }
  }

  /** A check of a nonce that passes for its template was submitted. */
  ghost predicate Submitted<W>(passes: (W, nat) -> bool, all: seq<W>, found: seq<Found<W>>, x: Test) {
    && 1 <= x.publication <= |all|
    && (passes(all[x.publication - 1], x.nonce) ==> Found(x.thread, x.publication, all[x.publication - 1], x.nonce) in found)
  }

  lemma {:induction false} EveryHitSubmitted<W(!new)>(passes: (W, nat) -> bool, count: nat, states: seq<State<W>>,
                                                     events: seq<Event<W>>, k: nat, a: nat)
    requires Run(passes, count, states, events) && k < |states| && a < |states[k].tests|
    ensures Submitted(passes, Published(events[..k]), states[k].found, states[k].tests[a])
    decreases k
  {
    var p := k - 1;
    var all, s, e := Published(events[..p]), states[p], events[p];
    assert states[k] == After(passes, s, e);
    assert events[..k][..p] == events[..p];
    if a < |s.tests| {
      EveryHitSubmitted(passes, count, states, events, p, a);
      assert states[k].tests[a] == s.tests[a];
      assert forall f :: f in s.found ==> f in states[k].found;
    } else {
      MinesWhatWasPublished(passes, count, states, events, p);
      assert RightWork(all, s.threads[e.i]);
    }
  }

  /** And a thread that takes work takes the latest. */
  lemma TakesLatest<W(!new)>(passes: (W, nat) -> bool, count: nat, states: seq<State<W>>, events: seq<Event<W>>, k: nat)
    requires Run(passes, count, states, events) && k < |events| && events[k].Take?
    ensures var all, t := Published(events[..k]), states[k + 1].threads[events[k].i];
            all != [] && t.phase == Mining(all[|all| - 1]) && t.taken == |all|
  {
    MinesWhatWasPublished(passes, count, states, events, k);
    RunKeeps(passes, count, states, events, k);
    assert Enabled(states[k], events[k]);
    assert ThreadOk(states[k], events[k].i, states[k].threads[events[k].i]);
  }

  class Miner<W(!new)> {
    const passes: (W, nat) -> bool
    var version: nat
    var work: Option<W>
    var stopped: bool
    var threads: seq<Thread<W>>
    var publications: nat // `next_id`, which numbers the templates
    ghost var tests: seq<Test>
    ghost var found: seq<Found<W>>

    ghost function Abs(): State<W>
      reads this
    {
      State(version, work, publications, stopped, threads, tests, found)
    }

    constructor (passes: (W, nat) -> bool, configured: nat)
      ensures this.passes == passes
      ensures Abs() == Started(if configured == 0 then 1 else configured)
    {
      this.passes := passes;
      version, work, stopped, publications, tests, found := 0, None, false, 0, [], [];
      var count := if configured == 0 then 1 else configured;
      threads := seq(count, i requires 0 <= i => Thread(Waiting, 0, (i * SPREAD) % WORD, 0, 0));
    }

    method PublishWork(w: W)
      modifies this`version, this`work, this`publications
      ensures Abs() == After(passes, old(Abs()), Publish(w))
    {
      version := (version + 1) % WORD;
      work := Some(w);
      publications := publications + 1;
    }

    /** What a waiting thread does when it holds the slot: takes the work if it is new, leaves if the miner is
        stopping, or goes on waiting. */
    method WaitForUpdate(i: nat)
      requires i < |threads| && threads[i].phase.Waiting?
      modifies this`threads
      ensures Abs() ==
              if old(Enabled(Abs(), Take(i))) then After(passes, old(Abs()), Take(i))
              else if stopped then After(passes, old(Abs()), Exit(i))
              else old(Abs())
    {
      var t := threads[i];
      if version != t.last {
        t := Thread(t.phase, version, t.nonce, publications, t.steps);
        threads := threads[i := if work.Some? then t.(phase := Mining(work.value)) else t];
      } else if stopped {
        threads := threads[i := t.(phase := Done)];
      }
    }

    /** One turn of the inner loop: a check, and if it failed the step to the next nonce. */
    method TryNonce(i: nat) returns (passed: bool)
      requires Enabled(Abs(), Try(i))
      modifies this`threads, this`tests, this`found
      ensures passed == passes(old(threads)[i].phase.work, old(threads)[i].nonce)
      ensures Abs() == After(passes, old(Abs()), Try(i))
    {
      var t := threads[i];
      tests := tests + [Test(i, t.taken, t.steps, t.nonce, publications)];
      passed := passes(t.phase.work, t.nonce);
      if passed {
        found := found + [Found(i, t.taken, t.phase.work, t.nonce)];
        threads := threads[i := t.(phase := Waiting)];
      } else {
        threads := threads[i := t.(phase := Checking(t.phase.work), nonce := (t.nonce + |threads|) % WORD,
                                   steps := t.steps + 1)];
      }
    }

    /** The look at the slot between two turns. */
    method CheckSlot(i: nat) returns (stale: bool)
      requires Enabled(Abs(), Check(i))
      modifies this`threads
      ensures stale == (version != old(threads)[i].last)
      ensures Abs() == After(passes, old(Abs()), Check(i))
    {
      var t := threads[i];
      stale := version != t.last;
      threads := threads[i := t.(phase := if stale then Waiting else Mining(t.phase.work))];
    }

    /** Undisturbed, a thread submits the first nonce of its walk that passes. */
    method Mine(i: nat, turns: nat) returns (k: nat, passed: bool)
      requires i < |threads| && threads[i].phase.Mining? && threads[i].last == version
      requires threads[i].nonce == NonceAt(|threads|, i, threads[i].steps)
      modifies this`threads, this`tests, this`found
      ensures old(threads)[i].steps <= k <= old(threads)[i].steps + turns
      ensures forall n: nat :: old(threads)[i].steps <= n < k ==>
                !passes(old(threads)[i].phase.work, NonceAt(|old(threads)|, i, n))
      ensures if passed then
                var f := Found(i, old(threads)[i].taken, old(threads)[i].phase.work, NonceAt(|old(threads)|, i, k));
                passes(f.work, f.nonce) && found == old(found) + [f]
              else k == old(threads)[i].steps + turns && found == old(found)
    {
      var t, count := threads[i], |threads|;
      k, passed := t.steps, false;
      while k < t.steps + turns
        invariant t.steps <= k <= t.steps + turns && |threads| == count && !passed
        invariant threads[i] == Thread(t.phase, version, NonceAt(count, i, k), t.taken, k)
        invariant forall n: nat :: t.steps <= n < k ==> !passes(t.phase.work, NonceAt(count, i, n))
        invariant found == old(found)
      {
        passed := TryNonce(i);
        if passed {
          return;
        }
        NonceStep(count, i, k);
        var _ := CheckSlot(i);
        k := k + 1;
      }
    }
  }
}
