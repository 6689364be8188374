/** The share handler of `bridge/src/share_handler.rs` as one caller runs it: admission, job search, and the branches
    that count and report what the search decided. Every locked section is a step of `ShareFlow`. */
module ShareHandler {
  import opened KeySpace
  import opened ShareFlow
  import G = GuardModel
  import SG = SubmitGuard
  import JS = JobSearch

  /** What a search outcome is counted and reported as; a search that failed on job ID 0 never gets that far. */
  function VerdictOf(o: JS.Outcome): Verdict
    requires o != JS.Underflow
  {
    match o
    case Accepted => Accepted
    case LowDiff => LowDiff
    case Stale => Stale
    case Bad => Bad
  }

  /** One counter goes up by one: which, by what the search found. */
  ghost predicate CountedAs(o: JS.Outcome, before: Counters, after: Counters) {
    match o
    case Accepted => after == Counters(before.shares + 1, before.stale, before.invalid)
    case Stale => after == Counters(before.shares, before.stale + 1, before.invalid)
    case LowDiff => after == Counters(before.shares, before.stale, before.invalid + 1)
    case Bad => after == Counters(before.shares, before.stale, before.invalid + 1)
    case Underflow => after == before
  }

  /** What the miner is told. */
  ghost predicate ToldAs(o: JS.Outcome, reply: Reply) {
    match o
    case Accepted => reply == Yes
    case Stale => reply == StaleShare
    case LowDiff => reply == LowDiffShare
    case Bad => reply == BadShare
    case Underflow => false
  }

  /** What the guard holds for the share from then on. */
  ghost predicate HeldAs(o: JS.Outcome, held: SG.Outcome) {
    match o
    case Accepted => held == SG.Accepted
    case Stale => held == SG.Stale
    case LowDiff => held == SG.LowDiff
    case Bad => held == SG.Bad
    case Underflow => false
  }

  class ShareHandler<K(==), W(==)> {
    const guard: SG.DuplicateSubmitGuard<K>
    var overall: Counters
    var workers: map<W, Counters>
    ghost var tasks: map<nat, Task<K, W>>
    ghost var log: seq<Logged<K, W>>

    ghost function Abs(): Sys<K, W>
      reads this, guard
    {
      Sys(guard.Abs(), Tally(overall, workers, tasks, log))
    }

    constructor ()
      ensures Abs() == Sys(G.Guard(map[], []), Tally(Counters(0, 0, 0), map[], map[], []))
      ensures guard.Spec() == SG.HANDLER_CONFIG && fresh(guard)
    {
      guard := new SG.DuplicateSubmitGuard(180_000_000_000, 50_000);
      overall, workers, tasks, log := Counters(0, 0, 0), map[], map[], [];
    }

    /** Task `id` is to make this update next. */
    ghost predicate Next(id: nat, update: Update)
      reads this
    {
      id in tasks && tasks[id].verdict.Some? && Script(tasks[id].verdict.value, tasks[id].done) == update
    }

    /** What is told with the last update of task `id`. */
    ghost function Ends(id: nat): Option<Reply>
      reads this
      requires id in tasks && tasks[id].verdict.Some?
    {
      if tasks[id].done + 1 == SCRIPT_LENGTH then Some(ReplyOf(OutcomeOf(tasks[id].verdict.value))) else None
    }

    method CountForWorker(ghost id: nat, worker: W, cls: Class, ghost now: nat)
      requires Next(id, BumpWorker) && tasks[id].worker == worker && ClassOf(tasks[id].verdict.value) == cls
      modifies this`workers, this`tasks
      ensures Step(guard.Spec(), old(Abs()), Advance(id, now), Abs(), old(Ends(id)))
      ensures tasks == Finish(old(tasks), id)
      ensures workers == old(workers)[worker := CountersOf(old(Abs()).tally, worker).Bump(cls)]
    {
      var before := if worker in workers then workers[worker] else Counters(0, 0, 0);
      workers := workers[worker := before.Bump(cls)];
      tasks := Finish(tasks, id);
    }

    method CountOverall(ghost id: nat, cls: Class, ghost now: nat)
      requires Next(id, BumpOverall) && ClassOf(tasks[id].verdict.value) == cls
      modifies this`overall, this`tasks
      ensures Step(guard.Spec(), old(Abs()), Advance(id, now), Abs(), old(Ends(id)))
      ensures tasks == Finish(old(tasks), id) && overall == old(overall).Bump(cls)
    {
      overall := overall.Bump(cls);
      tasks := Finish(tasks, id);
    }

    method ReportOutcome(ghost id: nat, key: K, outcome: SG.Outcome, now: nat)
      requires Next(id, Report) && tasks[id].key == key && OutcomeOf(tasks[id].verdict.value) == outcome
      requires SG.Wf(guard.Abs())
      modifies this`tasks, this`log, guard
      ensures SG.Wf(guard.Abs())
      ensures Step(guard.Spec(), old(Abs()), Advance(id, now), Abs(), old(Ends(id)))
      ensures tasks == Finish(old(tasks), id)
      ensures key in guard.entries ==> guard.entries[key].outcome == outcome
    {
      SG.StepWf(guard.Spec(), guard.Abs(), G.SetOutcome(key, now, outcome));
      guard.SetOutcome(key, now, outcome);
      log := log + [LogReport(key, tasks[id].worker, tasks[id].verdict.value)];
      tasks := Finish(tasks, id);
    }

    /** The pruning thread drops a worker's entry. */
    method Prune(worker: W)
      modifies this`workers, this`log
      ensures Step(guard.Spec(), old(Abs()), PruneWorker(worker), Abs(), None)
    {
      log := log + [LogPrune(worker, CountersOf(Abs().tally, worker))];
      workers := workers - {worker};
    }

    /** The search has decided; nothing is counted or reported yet. */
    ghost method Decide(id: nat, v: Verdict)
      requires id in tasks && tasks[id].verdict == None
      modifies this`tasks, this`log
      ensures Step(guard.Spec(), old(Abs()), Event.Decide(id, v), Abs(), None)
      ensures tasks == old(tasks)[id := old(tasks)[id].(verdict := Some(v))]
    {
      log := log + [LogVerdict(tasks[id].key, tasks[id].worker, v)];
      tasks := tasks[id := tasks[id].(verdict := Some(v))];
    }

    /** The way of a verdict: decided, then its three updates, the miner being told at the end. */
    ghost predicate Concluded(id: nat, v: Verdict, now: nat, s0: Sys<K, W>, s1: Sys<K, W>, s2: Sys<K, W>, s3: Sys<K, W>,
                              s4: Sys<K, W>)
      reads guard
    {
      && Step(guard.Spec(), s0, Event.Decide(id, v), s1, None)
      && Step(guard.Spec(), s1, Advance(id, now), s2, None)
      && Step(guard.Spec(), s2, Advance(id, now), s3, None)
      && Step(guard.Spec(), s3, Advance(id, now), s4, Some(ReplyOf(OutcomeOf(v))))
    }

    /** A block the node already had: reported first, then counted. */
    method ConcludeStale(ghost id: nat, key: K, worker: W, now: nat)
      returns (reply: Reply, ghost s1: Sys<K, W>, ghost s2: Sys<K, W>, ghost s3: Sys<K, W>)
      requires SG.Wf(guard.Abs()) && id in tasks && tasks[id] == Task(key, worker, None, 0)
      modifies this`overall, this`workers, this`tasks, this`log, guard
      ensures SG.Wf(guard.Abs())
      ensures Concluded(id, Verdict.Stale, now, old(Abs()), s1, s2, s3, Abs()) && reply == StaleShare
      ensures overall == old(overall).Bump(StaleShares)
      ensures workers == old(workers)[worker := CountersOf(old(Abs()).tally, worker).Bump(StaleShares)]
      ensures key in guard.entries ==> guard.entries[key].outcome == SG.Stale
      ensures s2.tally.overall == old(overall) && s2.tally.workers == old(workers) && s3.guard == Abs().guard
    {
      Decide(id, Verdict.Stale);
      s1 := Abs();
      ReportOutcome(id, key, SG.Stale, now);
      s2 := Abs();
      CountForWorker(id, worker, StaleShares, now);
      s3 := Abs();
      CountOverall(id, StaleShares, now);
      reply := StaleShare;
    }

    /** Every other verdict is counted first. */
    method CountThenReport(ghost id: nat, ghost v: Verdict, key: K, worker: W, cls: Class, outcome: SG.Outcome, now: nat)
      returns (ghost s1: Sys<K, W>, ghost s2: Sys<K, W>, ghost s3: Sys<K, W>)
      requires SG.Wf(guard.Abs()) && id in tasks && tasks[id] == Task(key, worker, None, 0)
      requires !v.Stale? && ClassOf(v) == cls && OutcomeOf(v) == outcome
      modifies this`overall, this`workers, this`tasks, this`log, guard
      ensures SG.Wf(guard.Abs())
      ensures Concluded(id, v, now, old(Abs()), s1, s2, s3, Abs())
      ensures overall == old(overall).Bump(cls)
      ensures workers == old(workers)[worker := CountersOf(old(Abs()).tally, worker).Bump(cls)]
      ensures key in guard.entries ==> guard.entries[key].outcome == outcome
      ensures s3.tally.overall == overall && s3.tally.workers == workers && s3.guard == old(Abs()).guard
    {
      Decide(id, v);
      s1 := Abs();
      CountForWorker(id, worker, cls, now);
      s2 := Abs();
      CountOverall(id, cls, now);
      s3 := Abs();
      ReportOutcome(id, key, outcome, now);
    }

    /** What follows the search: one counter, the worker's and the overall one, goes up by one, the guard is told, and
        so is the miner; in the order of the verdict. */
    method Conclude(ghost id: nat, key: K, worker: W, outcome: JS.Outcome, now: nat)
      returns (reply: Reply, ghost s1: Sys<K, W>, ghost s2: Sys<K, W>, ghost s3: Sys<K, W>)
      requires SG.Wf(guard.Abs()) && outcome != JS.Underflow && id in tasks && tasks[id] == Task(key, worker, None, 0)
      modifies this`overall, this`workers, this`tasks, this`log, guard
      ensures SG.Wf(guard.Abs())
      ensures Concluded(id, VerdictOf(outcome), now, old(Abs()), s1, s2, s3, Abs())
      ensures reply == ReplyOf(OutcomeOf(VerdictOf(outcome)))
      ensures overall == old(overall).Bump(ClassOf(VerdictOf(outcome)))
      ensures workers ==
              old(workers)[worker := CountersOf(old(Abs()).tally, worker).Bump(ClassOf(VerdictOf(outcome)))]
      ensures CountedAs(outcome, old(overall), overall)
      ensures worker in workers && CountedAs(outcome, CountersOf(old(Abs()).tally, worker), workers[worker])
      ensures ToldAs(outcome, reply)
      ensures if outcome.Stale? then s2.tally.overall == old(overall) && s2.tally.workers == old(workers) && s3.guard == Abs().guard
              else s3.tally.overall == overall && s3.tally.workers == workers && s3.guard == old(Abs()).guard
      ensures key in guard.entries ==> HeldAs(outcome, guard.entries[key].outcome)
    {
      match outcome
      case Stale =>
        reply, s1, s2, s3 := ConcludeStale(id, key, worker, now);
      case Bad =>
        s1, s2, s3 := CountThenReport(id, Verdict.Bad, key, worker, InvalidShares, SG.Bad, now);
        reply := BadShare;
      case LowDiff =>
        s1, s2, s3 := CountThenReport(id, Verdict.LowDiff, key, worker, InvalidShares, SG.LowDiff, now);
        reply := LowDiffShare;
      case Accepted =>
        s1, s2, s3 := CountThenReport(id, Verdict.Accepted, key, worker, Shares, SG.Accepted, now);
        reply := Yes;
    }

    /** The guard's answer to a submission. */
    method Admit(ghost id: nat, key: K, ghost worker: W, now: nat) returns (reply: Option<Reply>)
      requires SG.Wf(guard.Abs()) && id !in tasks
      modifies this`tasks, this`log, guard
      ensures SG.Wf(guard.Abs())
      ensures Step(guard.Spec(), old(Abs()), Submit(id, key, worker, now), Abs(), reply)
      ensures reply.None? <==> Admitting(guard.Spec(), old(Abs()), Submit(id, key, worker, now))
      ensures reply.None? ==> tasks == old(tasks)[id := Task(key, worker, None, 0)]
    {
      var held := guard.TryAdmit(key, now);
      if held == None {
        tasks := tasks[id := Task(key, worker, None, 0)];
        log := log + [LogAdmit(key, worker)];
        reply := None;
      } else {
        reply := Some(ReplyOf(held.value));
      }
    }

    /** An admitted submission: the search and what follows it. A search that fails on job ID 0 leaves it in flight. */
    method Decided<Job>(ghost id: nat, key: K, worker: W, env: JS.Env<Job>, jobId: nat, first: Job, later: nat)
      returns (reply: Option<Reply>, outcome: JS.Outcome, ghost tried: seq<Job>, ghost s1: Sys<K, W>, ghost s2: Sys<K, W>,
               ghost s3: Sys<K, W>)
      requires SG.Wf(guard.Abs()) && id in tasks && tasks[id] == Task(key, worker, None, 0)
      modifies this`overall, this`workers, this`tasks, this`log, guard
      ensures SG.Wf(guard.Abs()) && JS.Trail(env, jobId, first, tried) && JS.Decides(env, jobId, tried, outcome)
      ensures if outcome == JS.Underflow then Abs() == old(Abs()) && reply == None
              else
                && Concluded(id, VerdictOf(outcome), later, old(Abs()), s1, s2, s3, Abs())
                && worker in workers && workers == old(workers)[worker := workers[worker]]
                && CountedAs(outcome, CountersOf(old(Abs()).tally, worker), workers[worker])
                && reply.Some? && ToldAs(outcome, reply.value)
                && (key in guard.entries ==> HeldAs(outcome, guard.entries[key].outcome))
      ensures CountedAs(outcome, old(overall), overall)
    {
      s1, s2, s3 := Abs(), Abs(), Abs();
      outcome, tried := JS.Search(env, jobId, first);
      reply := None;
      if outcome != JS.Underflow {
        var told;
        told, s1, s2, s3 := Conclude(id, key, worker, outcome, later);
        reply := Some(told);
      }
    }

    /** A whole submission, undisturbed: turned away with what the guard holds, or admitted, searched for, counted once
        for the worker and once overall as what the search found, and reported, step by step. */
    method HandleSubmit<Job>(ghost id: nat, key: K, worker: W, env: JS.Env<Job>, jobId: nat, first: Job, now: nat, later: nat)
      returns (reply: Option<Reply>, ghost outcome: Option<JS.Outcome>, ghost tried: seq<Job>, ghost s0: Sys<K, W>,
               ghost s1: Sys<K, W>, ghost s2: Sys<K, W>, ghost s3: Sys<K, W>)
      requires SG.Wf(guard.Abs()) && id !in tasks
      modifies this`overall, this`workers, this`tasks, this`log, guard
      ensures SG.Wf(guard.Abs())
      ensures outcome.Some? <==> Admitting(guard.Spec(), old(Abs()), Submit(id, key, worker, now))
      ensures outcome.Some? ==> JS.Trail(env, jobId, first, tried) && JS.Decides(env, jobId, tried, outcome.value)
      ensures Step(guard.Spec(), old(Abs()), Submit(id, key, worker, now), s0, if outcome.Some? then None else reply)
      ensures if outcome.Some? && outcome.value != JS.Underflow then
                && Concluded(id, VerdictOf(outcome.value), later, s0, s1, s2, s3, Abs())
                && worker in workers && workers == old(workers)[worker := workers[worker]]
                && CountedAs(outcome.value, CountersOf(old(Abs()).tally, worker), workers[worker])
                && reply.Some? && ToldAs(outcome.value, reply.value)
                && (key in guard.entries ==> HeldAs(outcome.value, guard.entries[key].outcome))
              else
                Abs() == s0 && overall == old(overall) && workers == old(workers)
      ensures outcome.Some? ==> CountedAs(outcome.value, old(overall), overall)
      ensures outcome == Some(JS.Underflow) ==> reply == None && id in tasks
    {
      outcome, tried := None, [];
      reply := Admit(id, key, worker, now);
      s0, s1, s2, s3 := Abs(), Abs(), Abs(), Abs();
      if reply == None {
        var found;
        reply, found, tried, s1, s2, s3 := Decided(id, key, worker, env, jobId, first, later);
        outcome := Some(found);
      }
    }
  }
}
