/** Concurrent runs of `handle_submit` (`bridge/src/share_handler.rs`): admission by the guard, a verdict for
    each admitted share, and the separately locked updates of guard and counters that follow it. */
module ShareFlow {
  import opened KeySpace
  import opened GuardModel
  import SG = SubmitGuard
  import C = Cache

  datatype Verdict = Accepted | Stale | LowDiff | Bad

  /** The three counters of `WorkStats`; low-difficulty and bad shares both count as invalid. */
  datatype Class = Shares | StaleShares | InvalidShares

  datatype Counters = Counters(shares: nat, stale: nat, invalid: nat) {
    function Pick(c: Class): nat {
      match c case Shares => shares case StaleShares => stale case InvalidShares => invalid
    }

    function Total(): nat {
      shares + stale + invalid
    }

    function Read(c: Option<Class>): nat {
      if c.None? then Total() else Pick(c.value)
    }

    function Bump(c: Class): Counters {
      match c
      case Shares => this.(shares := shares + 1)
      case StaleShares => this.(stale := stale + 1)
      case InvalidShares => this.(invalid := invalid + 1)
    }
  }

  lemma BumpRead(n: Counters, c: Class, d: Option<Class>)
    ensures n.Bump(c).Read(d) == n.Read(d) + if d.None? || d.value == c then 1 else 0
  {
  }

  function ClassOf(v: Verdict): Class {
    match v case Accepted => Shares case Stale => StaleShares case _ => InvalidShares
  }

  function OutcomeOf(v: Verdict): SG.Outcome {
    match v
    case Accepted => SG.Accepted
    case Stale => SG.Stale
    case LowDiff => SG.LowDiff
    case Bad => SG.Bad
  }

  datatype Reply = Yes | StaleShare | LowDiffShare | BadShare

  /** What a miner is told; a share still in flight is told yes. */
  function ReplyOf(o: SG.Outcome): Reply {
    match o
    case Accepted => Yes
    case InFlight => Yes
    case Stale => StaleShare
    case LowDiff => LowDiffShare
    case Bad => BadShare
  }

  /** The locked updates after a verdict. */
  datatype Update = BumpWorker | BumpOverall | Report

  /** Their order: a stale block reports to the guard first, every other verdict last. */
  function Script(v: Verdict, i: nat): Update {
    if v.Stale? then (if i == 0 then Report else if i == 1 then BumpWorker else BumpOverall)
    else (if i == 0 then BumpWorker else if i == 1 then BumpOverall else Report)
  }

  const SCRIPT_LENGTH: nat := 3

  /** An admitted share: no verdict while the job search runs, then the updates done so far. */
  datatype Task<K, W> = Task(key: K, worker: W, verdict: Option<Verdict>, done: nat)

  datatype Logged<K, W> =
    | LogAdmit(key: K, worker: W)
    | LogVerdict(key: K, worker: W, verdict: Verdict)
    | LogReport(key: K, worker: W, verdict: Verdict)
    | LogPrune(worker: W, held: Counters)

  datatype Tally<K, W> = Tally(
    overall: Counters,
    workers: map<W, Counters>,
    tasks: map<nat, Task<K, W>>,
    log: seq<Logged<K, W>>)

  datatype Sys<K, W> = Sys(guard: Guard<K, SG.Outcome>, tally: Tally<K, W>)

  datatype Event<K, W> =
    | Submit(id: nat, key: K, worker: W, now: nat)
    | Decide(id: nat, verdict: Verdict)
    | Advance(id: nat, now: nat)
    | PruneWorker(worker: W)

  function CountersOf<K, W>(s: Tally<K, W>, w: W): Counters {
    if w in s.workers then s.workers[w] else Counters(0, 0, 0)
  }

  function Finish<K, W>(tasks: map<nat, Task<K, W>>, id: nat): map<nat, Task<K, W>>
    requires id in tasks
  {
    if tasks[id].done + 1 == SCRIPT_LENGTH then tasks - {id} else tasks[id := tasks[id].(done := tasks[id].done + 1)]
  }

  /** Counters and tasks; a submission that the guard does not admit changes nothing here. */
  ghost predicate TallyStep<K, W>(s: Tally<K, W>, e: Event<K, W>, admitted: bool, s': Tally<K, W>) {
    match e
    case Submit(id, key, worker, _) =>
      && id !in s.tasks
      && s' == if admitted then s.(tasks := s.tasks[id := Task(key, worker, None, 0)], log := s.log + [LogAdmit(key, worker)]) else s
    case Decide(id, v) =>
      && id in s.tasks && s.tasks[id].verdict == None
      && s' == s.(tasks := s.tasks[id := s.tasks[id].(verdict := Some(v))],
                  log := s.log + [LogVerdict(s.tasks[id].key, s.tasks[id].worker, v)])
    case PruneWorker(w) =>
      s' == s.(workers := s.workers - {w}, log := s.log + [LogPrune(w, CountersOf(s, w))])
    case Advance(id, _) =>
      && id in s.tasks && s.tasks[id].verdict.Some?
      && var t := s.tasks[id];
         var cls := ClassOf(t.verdict.value);
         match Script(t.verdict.value, t.done)
         case BumpWorker =>
           s' == s.(tasks := Finish(s.tasks, id), workers := s.workers[t.worker := CountersOf(s, t.worker).Bump(cls)])
         case BumpOverall =>
           s' == s.(tasks := Finish(s.tasks, id), overall := s.overall.Bump(cls))
         case Report =>
           s' == s.(tasks := Finish(s.tasks, id), log := s.log + [LogReport(t.key, t.worker, t.verdict.value)])
  }

  /** What a step does to the guard, if anything. */
  function GuardAct<K, W>(s: Tally<K, W>, e: Event<K, W>): Option<Act<K, SG.Outcome>> {
    match e
    case Submit(_, key, _, now) => Some(TryAdmit(key, now, SG.InFlight))
    case Decide(_, _) => None
    case Advance(id, now) =>
      if id in s.tasks && s.tasks[id].verdict.Some? && Script(s.tasks[id].verdict.value, s.tasks[id].done) == Report then
        Some(SetOutcome(s.tasks[id].key, now, OutcomeOf(s.tasks[id].verdict.value)))
      else
        None
    case PruneWorker(_) => None
  }

  ghost predicate Admitting<K, W>(c: Config, s: Sys<K, W>, e: Event<K, W>) {
    e.Submit? && Admits(c, s.guard, TryAdmit(e.key, e.now, SG.InFlight))
  }

  /** One locked section. `reply` is what the miner is told, when this step tells it. */
  ghost predicate Step<K, W>(c: Config, s: Sys<K, W>, e: Event<K, W>, s': Sys<K, W>, reply: Option<Reply>) {
    && TallyStep(s.tally, e, Admitting(c, s, e), s'.tally)
    && s'.guard == (match GuardAct(s.tally, e) case None => s.guard case Some(a) => Next(c, s.guard, a))
    && match e
       case Submit(_, key, _, now) =>
         if Admitting(c, s, e) then reply == None
         else key in s'.guard.entries && reply == Some(ReplyOf(s'.guard.entries[key].outcome))
       case Decide(_, _) => reply == None
       case Advance(id, _) =>
         var t := s.tally.tasks[id];
         reply == if t.done + 1 == SCRIPT_LENGTH then Some(ReplyOf(OutcomeOf(t.verdict.value))) else None
       case PruneWorker(_) => reply == None
  }

  // ---- conservation ----

  /** Which counter is asked about: overall or one worker's, all classes or one. */
  datatype Query<W> = Query(scope: Option<W>, cls: Option<Class>)

  /** What was ever counted: for a worker, in its entry and in those it had before. */
  function Counted<K, W>(s: Tally<K, W>, q: Query<W>): nat {
    if q.scope.None? then s.overall.Read(q.cls)
    else CountersOf(s, q.scope.value).Read(q.cls) + Lost(s.log, q)
  }

  /** What the removed entries of a worker held. */
  function Lost<K, W(==)>(log: seq<Logged<K, W>>, q: Query<W>): nat {
    if log == [] then 0
    else
      var e := log[|log| - 1];
      Lost(log[..|log| - 1], q) + if e.LogPrune? && q.scope == Some(e.worker) then e.held.Read(q.cls) else 0
  }

  predicate Owes<K, W(==)>(t: Task<K, W>, q: Query<W>) {
    && (q.scope.Some? ==> t.worker == q.scope.value)
    && (if t.verdict.None? then q.cls.None?
        else
          && (q.cls.Some? ==> ClassOf(t.verdict.value) == q.cls.value)
          && t.done <= PositionOf(t.verdict.value, q.scope.None?))
  }

  /** A task's next update is the one that makes this count. */
  predicate Pays<K, W(==)>(t: Task<K, W>, q: Query<W>)
    requires t.verdict.Some?
  {
    Owes(t, q) && t.done == PositionOf(t.verdict.value, q.scope.None?)
  }

  /** Where in the script the overall or the worker's counter is bumped. */
  function PositionOf(v: Verdict, overall: bool): nat {
    (if v.Stale? then 1 else 0) + if overall then 1 else 0
  }

  lemma ScriptPositions(v: Verdict, i: nat)
    requires i < SCRIPT_LENGTH
    ensures Script(v, i) == BumpOverall <==> i == PositionOf(v, true)
    ensures Script(v, i) == BumpWorker <==> i == PositionOf(v, false)
  {
  }

  function Weight<K, W(==)>(t: Task<K, W>, q: Query<W>): nat {
    if Owes(t, q) then 1 else 0
  }

  function WeightOf<K, W(==)>(q: Query<W>): Task<K, W> -> nat {
    t => Weight(t, q)
  }

  /** How many running tasks have yet to make this count. */
  ghost function Owed<K, W>(tasks: map<nat, Task<K, W>>, q: Query<W>): nat {
    C.Total(tasks, WeightOf(q))
  }

  predicate Matches<K, W(==)>(e: Logged<K, W>, q: Query<W>) {
    && (q.scope.Some? ==> e.worker == q.scope.value)
    && !e.LogPrune?
    && (if q.cls.None? then e.LogAdmit? else e.LogVerdict? && ClassOf(e.verdict) == q.cls.value)
  }

  /** Admissions, or verdicts of one class, so far. */
  function Due<K, W(==)>(log: seq<Logged<K, W>>, q: Query<W>): nat {
    if log == [] then 0
    else Due(log[..|log| - 1], q) + if Matches(log[|log| - 1], q) then 1 else 0
  }

  /** Nothing is counted twice and nothing is lost: what is counted plus what running tasks still owe is
      what was admitted, and class by class what was decided. */
  ghost predicate Balanced<K, W(!new)>(s: Tally<K, W>) {
    forall q :: Counted(s, q) + Owed(s.tasks, q) == Due(s.log, q)
  }

  ghost predicate DecidedFor<K, W>(log: seq<Logged<K, W>>, k: K, v: Verdict) {
    exists i :: 0 <= i < |log| && log[i].LogVerdict? && log[i].key == k && log[i].verdict == v
  }

  predicate TaskShape<K, W>(t: Task<K, W>) {
    t.done < SCRIPT_LENGTH && (t.verdict.None? ==> t.done == 0)
  }

  ghost predicate Shaped<K, W>(s: Tally<K, W>) {
    forall id :: id in s.tasks ==>
      TaskShape(s.tasks[id]) && (s.tasks[id].verdict.Some? ==> DecidedFor(s.log, s.tasks[id].key, s.tasks[id].verdict.value))
  }

  /** An outcome the guard holds is still open or was decided for this very key. */
  ghost predicate Justified<K, W>(log: seq<Logged<K, W>>, k: K, o: SG.Outcome) {
    match o
    case InFlight => true
    case Accepted => DecidedFor(log, k, Accepted)
    case Stale => DecidedFor(log, k, Stale)
    case LowDiff => DecidedFor(log, k, LowDiff)
    case Bad => DecidedFor(log, k, Bad)
  }

  /** The last thing the guard was told about a key: admitted, or a verdict. */
  function Told<K(==), W>(log: seq<Logged<K, W>>, k: K): Option<SG.Outcome> {
    if log == [] then None
    else
      var e := log[|log| - 1];
      if e.LogAdmit? && e.key == k then Some(SG.InFlight)
      else if e.LogReport? && e.key == k then Some(OutcomeOf(e.verdict))
      else Told(log[..|log| - 1], k)
  }

  /** A task has told the guard its verdict. */
  predicate Reported<K, W>(t: Task<K, W>) {
    t.verdict.Some? && t.done > ReportPosition(t.verdict.value)
  }

  function ReportPosition(v: Verdict): nat {
    if v.Stale? then 0 else 2
  }

  /** A handler is at work on this key and will yet report. */
  ghost predicate AtWork<K, W>(tasks: map<nat, Task<K, W>>, k: K) {
    exists id :: id in tasks && tasks[id].key == k && !Reported(tasks[id])
  }

  /** What the guard holds for a key: the last it was told, which is a verdict reached for this very key or, while it
      is open, has a handler at work on it. */
  ghost predicate HoldsRight<K, W>(t: Tally<K, W>, k: K, o: SG.Outcome) {
    && Told(t.log, k) == Some(o) && Justified(t.log, k, o)
    && (o == SG.InFlight ==> AtWork(t.tasks, k))
  }

  ghost predicate Inv<K, W(!new)>(s: Sys<K, W>) {
    && SG.Wf(s.guard) && Balanced(s.tally) && Shaped(s.tally)
    && forall k :: k in s.guard.entries ==> HoldsRight(s.tally, k, s.guard.entries[k].outcome)
  }

  lemma OwedUpdate<K, W>(tasks: map<nat, Task<K, W>>, id: nat, t: Task<K, W>, q: Query<W>)
    ensures Owed(tasks[id := t], q) + (if id in tasks then Weight(tasks[id], q) else 0) == Owed(tasks, q) + Weight(t, q)
  {
    C.TotalUpdate(tasks, WeightOf(q), id, t);
    if id in tasks {
      C.TotalRemove(tasks, WeightOf(q), id);
    } else {
      assert tasks - {id} == tasks;
    }
  }

  lemma OwedRemove<K, W>(tasks: map<nat, Task<K, W>>, id: nat, q: Query<W>)
    requires id in tasks
    ensures Owed(tasks, q) == Weight(tasks[id], q) + Owed(tasks - {id}, q)
  {
    C.TotalRemove(tasks, WeightOf(q), id);
  }

  lemma LostSnoc<K, W>(log: seq<Logged<K, W>>, e: Logged<K, W>, q: Query<W>)
    ensures Lost(log + [e], q) ==
            Lost(log, q) + if e.LogPrune? && q.scope == Some(e.worker) then e.held.Read(q.cls) else 0
  {
    assert (log + [e])[..|log|] == log;
  }

  lemma DueSnoc<K, W>(log: seq<Logged<K, W>>, e: Logged<K, W>, q: Query<W>)
    ensures Due(log + [e], q) == Due(log, q) + if Matches(e, q) then 1 else 0
  {
    assert (log + [e])[..|log|] == log;
  }

  /** An update settles exactly the debt it pays. */
  lemma FinishOwes<K, W>(tasks: map<nat, Task<K, W>>, id: nat, q: Query<W>)
    requires id in tasks && tasks[id].verdict.Some? && TaskShape(tasks[id])
    ensures var t := tasks[id];
            Owed(tasks, q) == Owed(Finish(tasks, id), q) + if Pays(t, q) then 1 else 0
  {
    var t := tasks[id];
    if t.done + 1 == SCRIPT_LENGTH {
      OwedRemove(tasks, id, q);
    } else {
      OwedUpdate(tasks, id, t.(done := t.done + 1), q);
    }
  }

  lemma CountOverall<K, W>(s: Tally<K, W>, s': Tally<K, W>, cls: Class, q: Query<W>)
    requires s'.overall == s.overall.Bump(cls) && s'.workers == s.workers && s'.log == s.log
    ensures Counted(s', q) == Counted(s, q) + if q.scope.None? && (q.cls.None? || q.cls.value == cls) then 1 else 0
  {
    BumpRead(s.overall, cls, q.cls);
  }

  lemma CountWorker<K, W>(s: Tally<K, W>, s': Tally<K, W>, w: W, cls: Class, q: Query<W>)
    requires s'.overall == s.overall && s'.workers == s.workers[w := CountersOf(s, w).Bump(cls)] && s'.log == s.log
    ensures Counted(s', q) == Counted(s, q) + if q.scope == Some(w) && (q.cls.None? || q.cls.value == cls) then 1 else 0
  {
    if q.scope == Some(w) {
      BumpRead(CountersOf(s, w), cls, q.cls);
    }
  }

  lemma CountLogged<K, W>(s: Tally<K, W>, s': Tally<K, W>, e: Logged<K, W>, q: Query<W>)
    requires s'.overall == s.overall && s'.workers == s.workers && s'.log == s.log + [e] && !e.LogPrune?
    ensures Counted(s', q) == Counted(s, q)
  {
    LostSnoc(s.log, e, q);
  }

  lemma EntryGone<K, W>(s: Tally<K, W>, s': Tally<K, W>, w: W, v: W)
    requires s'.workers == s.workers - {w}
    ensures CountersOf(s', v) == if v == w then Counters(0, 0, 0) else CountersOf(s, v)
  {
  }

  /** Removing an entry loses its counters to the worker, not to what was ever counted. */
  lemma PruneCounts<K, W>(s: Tally<K, W>, w: W, s': Tally<K, W>, q: Query<W>)
    requires s'.workers == s.workers - {w} && s'.overall == s.overall
    requires s'.log == s.log + [LogPrune(w, CountersOf(s, w))]
    ensures Counted(s', q) == Counted(s, q)
  {
    LostSnoc(s.log, LogPrune(w, CountersOf(s, w)), q);
    if q.scope.Some? {
      EntryGone(s, s', w, q.scope.value);
    }
  }

  lemma PaysIff<K, W>(t: Task<K, W>, q: Query<W>)
    requires t.verdict.Some? && t.done < SCRIPT_LENGTH
    ensures var cls := ClassOf(t.verdict.value);
            match Script(t.verdict.value, t.done)
            case BumpOverall => Pays(t, q) <==> q.scope.None? && (q.cls.None? || q.cls.value == cls)
            case BumpWorker => Pays(t, q) <==> q.scope == Some(t.worker) && (q.cls.None? || q.cls.value == cls)
            case Report => !Pays(t, q)
  {
    ScriptPositions(t.verdict.value, t.done);
  }

  lemma AdvanceCounts<K, W>(s: Tally<K, W>, id: nat, now: nat, s': Tally<K, W>, q: Query<W>)
    requires TallyStep(s, Advance(id, now), true, s') && TaskShape(s.tasks[id])
    ensures Counted(s', q) == Counted(s, q) + if Pays(s.tasks[id], q) then 1 else 0
  {
    var t := s.tasks[id];
    var v := t.verdict.value;
    PaysIff(t, q);
    match Script(v, t.done) {
      case BumpOverall => CountOverall(s, s', ClassOf(v), q);
      case BumpWorker => CountWorker(s, s', t.worker, ClassOf(v), q);
      case Report => CountLogged(s, s', LogReport(t.key, t.worker, v), q);
    }
  }

  lemma AdvanceDue<K, W>(s: Tally<K, W>, id: nat, now: nat, s': Tally<K, W>, q: Query<W>)
    requires TallyStep(s, Advance(id, now), true, s')
    ensures Due(s'.log, q) == Due(s.log, q)
  {
    var t := s.tasks[id];
    DueSnoc(s.log, LogReport(t.key, t.worker, t.verdict.value), q);
  }

  lemma SubmitBalances<K, W>(s: Tally<K, W>, e: Event<K, W>, s': Tally<K, W>, q: Query<W>)
    requires e.Submit? && TallyStep(s, e, true, s')
    ensures Owed(s'.tasks, q) - Owed(s.tasks, q) == Due(s'.log, q) - Due(s.log, q)
  {
    OwedUpdate(s.tasks, e.id, Task(e.key, e.worker, None, 0), q);
    DueSnoc(s.log, LogAdmit(e.key, e.worker), q);
  }

  lemma DecideBalances<K, W>(s: Tally<K, W>, e: Event<K, W>, s': Tally<K, W>, q: Query<W>)
    requires e.Decide? && TallyStep(s, e, true, s') && TaskShape(s.tasks[e.id])
    ensures Owed(s'.tasks, q) - Owed(s.tasks, q) == Due(s'.log, q) - Due(s.log, q)
  {
    var t := s.tasks[e.id];
    OwedUpdate(s.tasks, e.id, t.(verdict := Some(e.verdict)), q);
    DueSnoc(s.log, LogVerdict(t.key, t.worker, e.verdict), q);
  }

  lemma StepBalances<K, W>(s: Tally<K, W>, e: Event<K, W>, admitted: bool, s': Tally<K, W>, q: Query<W>)
    requires TallyStep(s, e, admitted, s') && (forall id :: id in s.tasks ==> TaskShape(s.tasks[id]))
    requires Counted(s, q) + Owed(s.tasks, q) == Due(s.log, q)
    ensures Counted(s', q) + Owed(s'.tasks, q) == Due(s'.log, q)
  {
    match e {
      case Submit(_, _, _, _) =>
        if admitted {
          SubmitBalances(s, e, s', q);
        }
      case Decide(_, _) => DecideBalances(s, e, s', q);
      case Advance(id, now) =>
        FinishOwes(s.tasks, id, q);
        AdvanceCounts(s, id, now, s', q);
        AdvanceDue(s, id, now, s', q);
      case PruneWorker(w) =>
        PruneCounts(s, w, s', q);
        DueSnoc(s.log, LogPrune(w, CountersOf(s, w)), q);
    }
  }

  // ---- every step, every run ----

  ghost predicate LogGrows<K, W>(log: seq<Logged<K, W>>, log': seq<Logged<K, W>>) {
    |log| <= |log'| && forall i :: 0 <= i < |log| ==> log'[i] == log[i]
  }

  lemma DecidedStays<K, W>(log: seq<Logged<K, W>>, log': seq<Logged<K, W>>, k: K, v: Verdict)
    requires LogGrows(log, log') && DecidedFor(log, k, v)
    ensures DecidedFor(log', k, v)
  {
    var i :| 0 <= i < |log| && log[i].LogVerdict? && log[i].key == k && log[i].verdict == v;
    assert log'[i] == log[i];
  }

  lemma JustifiedStays<K, W>(log: seq<Logged<K, W>>, log': seq<Logged<K, W>>, k: K, o: SG.Outcome)
    requires LogGrows(log, log') && Justified(log, k, o)
    ensures Justified(log', k, o)
  {
    match o
    case InFlight =>
    case Accepted => DecidedStays(log, log', k, Accepted);
    case Stale => DecidedStays(log, log', k, Stale);
    case LowDiff => DecidedStays(log, log', k, LowDiff);
    case Bad => DecidedStays(log, log', k, Bad);
  }

  lemma StepShaped<K, W>(s: Tally<K, W>, e: Event<K, W>, admitted: bool, s': Tally<K, W>)
    requires Shaped(s) && TallyStep(s, e, admitted, s')
    ensures Shaped(s') && LogGrows(s.log, s'.log)
  {
    forall id | id in s'.tasks && s'.tasks[id].verdict.Some?
      ensures DecidedFor(s'.log, s'.tasks[id].key, s'.tasks[id].verdict.value)
    {
      var t := s'.tasks[id];
      if e.Decide? && id == e.id {
        assert s'.log[|s.log|] == LogVerdict(t.key, t.worker, t.verdict.value);
      } else {
        DecidedStays(s.log, s'.log, t.key, t.verdict.value);
      }
    }
  }

  lemma StepJustified<K, W>(c: Config, s: Sys<K, W>, e: Event<K, W>, s': Sys<K, W>, reply: Option<Reply>, k: K)
    requires SG.Wf(s.guard) && Shaped(s.tally) && Step(c, s, e, s', reply) && k in s'.guard.entries
    requires k in s.guard.entries ==> Justified(s.tally.log, k, s.guard.entries[k].outcome)
    ensures Justified(s'.tally.log, k, s'.guard.entries[k].outcome)
  {
    StepShaped(s.tally, e, Admitting(c, s, e), s'.tally);
    var o := HeldAfter(c, s, e, s', reply, k);
    if o == None {
      JustifiedStays(s.tally.log, s'.tally.log, k, s.guard.entries[k].outcome);
    } else if e.Advance? {
      var t := s.tally.tasks[e.id];
      DecidedStays(s.tally.log, s'.tally.log, t.key, t.verdict.value);
    }
  }

  /** What the step tells the guard about a key, if anything. */
  function Tells<K(==), W>(s: Tally<K, W>, e: Event<K, W>, admitted: bool, k: K): Option<SG.Outcome> {
    match e
    case Submit(_, key, _, _) => if admitted && key == k then Some(SG.InFlight) else None
    case Decide(_, _) => None
    case Advance(id, _) =>
      if id in s.tasks && s.tasks[id].verdict.Some? && s.tasks[id].key == k
         && Script(s.tasks[id].verdict.value, s.tasks[id].done) == Report
      then Some(OutcomeOf(s.tasks[id].verdict.value)) else None
    case PruneWorker(_) => None
  }

  /** The guard holds what it is told, and otherwise what it held. */
  lemma HeldAfter<K, W>(c: Config, s: Sys<K, W>, e: Event<K, W>, s': Sys<K, W>, reply: Option<Reply>, k: K)
    returns (o: Option<SG.Outcome>)
    requires SG.Wf(s.guard) && Step(c, s, e, s', reply) && k in s'.guard.entries
    ensures o == Tells(s.tally, e, Admitting(c, s, e), k)
    ensures if o.Some? then s'.guard.entries[k].outcome == o.value
            else k in s.guard.entries && s'.guard.entries[k] == s.guard.entries[k]
  {
    o := Tells(s.tally, e, Admitting(c, s, e), k);
    SG.WfMeans(s.guard);
    match GuardAct(s.tally, e) {
      case None =>
      case Some(a) => StepEntries(c, s.guard, a, k);
    }
  }

  lemma ToldSnoc<K, W>(log: seq<Logged<K, W>>, e: Logged<K, W>, k: K)
    ensures Told(log + [e], k) ==
            if e.LogAdmit? && e.key == k then Some(SG.InFlight)
            else if e.LogReport? && e.key == k then Some(OutcomeOf(e.verdict))
            else Told(log, k)
  {
    assert (log + [e])[..|log|] == log;
  }

  lemma ToldAfter<K, W>(s: Tally<K, W>, e: Event<K, W>, admitted: bool, s': Tally<K, W>, k: K)
    requires TallyStep(s, e, admitted, s')
    ensures Told(s'.log, k) == if Tells(s, e, admitted, k).Some? then Tells(s, e, admitted, k) else Told(s.log, k)
  {
    match e
    case Submit(_, key, worker, _) => ToldSnoc(s.log, LogAdmit(key, worker), k);
    case Decide(id, v) => ToldSnoc(s.log, LogVerdict(s.tasks[id].key, s.tasks[id].worker, v), k);
    case Advance(id, _) =>
      var t := s.tasks[id];
      ToldSnoc(s.log, LogReport(t.key, t.worker, t.verdict.value), k);
    case PruneWorker(w) => ToldSnoc(s.log, LogPrune(w, CountersOf(s, w)), k);
  }

  /** A handler that is at work stays so until it reports, and an admitted key has one. */
  lemma WorkAfter<K, W>(s: Tally<K, W>, e: Event<K, W>, admitted: bool, s': Tally<K, W>, k: K)
    requires TallyStep(s, e, admitted, s') && Shaped(s)
    requires match Tells(s, e, admitted, k) case None => AtWork(s.tasks, k) case Some(o) => o == SG.InFlight
    ensures AtWork(s'.tasks, k)
  {
    if Tells(s, e, admitted, k).Some? {
      assert e.id in s'.tasks && s'.tasks[e.id] == Task(k, e.worker, None, 0);
    } else {
      var id :| id in s.tasks && s.tasks[id].key == k && !Reported(s.tasks[id]);
      assert TaskShape(s.tasks[id]);
      assert id in s'.tasks && s'.tasks[id].key == k && !Reported(s'.tasks[id]);
    }
  }

  lemma StepHolds<K, W>(c: Config, s: Sys<K, W>, e: Event<K, W>, s': Sys<K, W>, reply: Option<Reply>, k: K)
    requires SG.Wf(s.guard) && Shaped(s.tally) && Step(c, s, e, s', reply) && k in s'.guard.entries
    requires k in s.guard.entries ==> HoldsRight(s.tally, k, s.guard.entries[k].outcome)
    ensures HoldsRight(s'.tally, k, s'.guard.entries[k].outcome)
  {
    var o := HeldAfter(c, s, e, s', reply, k);
    StepJustified(c, s, e, s', reply, k);
    ToldAfter(s.tally, e, Admitting(c, s, e), s'.tally, k);
    if s'.guard.entries[k].outcome == SG.InFlight {
      WorkAfter(s.tally, e, Admitting(c, s, e), s'.tally, k);
    }
  }

  /** Every step keeps counters, running tasks and guard in agreement with what was admitted and decided. */
  lemma StepInv<K, W(!new)>(c: Config, s: Sys<K, W>, e: Event<K, W>, s': Sys<K, W>, reply: Option<Reply>)
    requires Inv(s) && Step(c, s, e, s', reply)
    ensures Inv(s')
  {
    StepShaped(s.tally, e, Admitting(c, s, e), s'.tally);
    forall q
      ensures Counted(s'.tally, q) + Owed(s'.tally.tasks, q) == Due(s'.tally.log, q)
    {
      StepBalances(s.tally, e, Admitting(c, s, e), s'.tally, q);
    }
    match GuardAct(s.tally, e) {
      case None =>
      case Some(a) => SG.StepWf(c, s.guard, a);
    }
    forall k | k in s'.guard.entries
      ensures HoldsRight(s'.tally, k, s'.guard.entries[k].outcome)
    {
      StepHolds(c, s, e, s', reply, k);
    }
  }

  ghost predicate Run<K, W>(c: Config, ss: seq<Sys<K, W>>, es: seq<Event<K, W>>, replies: seq<Option<Reply>>) {
    && |ss| == |es| + 1 && |replies| == |es|
    && ss[0] == Sys(Guard(map[], []), Tally(Counters(0, 0, 0), map[], map[], []))
    && forall i :: 0 <= i < |es| ==> Follows(c, ss, es, replies, i)
  }

  ghost predicate Follows<K, W>(c: Config, ss: seq<Sys<K, W>>, es: seq<Event<K, W>>, replies: seq<Option<Reply>>, i: nat)
    requires |ss| == |es| + 1 && |replies| == |es| && i < |es|
  {
    Step(c, ss[i], es[i], ss[i + 1], replies[i])
  }

  /** On every interleaving of handlers. */
  lemma {:induction false} RunInv<K, W(!new)>(c: Config, ss: seq<Sys<K, W>>, es: seq<Event<K, W>>, replies: seq<Option<Reply>>, i: nat)
    requires Run(c, ss, es, replies) && i <= |es|
    ensures Inv(ss[i])
  {
    if i > 0 {
      RunInv(c, ss, es, replies, i - 1);
      assert Follows(c, ss, es, replies, i - 1);
      StepInv(c, ss[i - 1], es[i - 1], ss[i], replies[i - 1]);
    }
  }

  /** Once nothing is in flight, overall and for every worker, what was counted adds up to the admissions and class by
      class to the verdicts. A worker's entry shows that number, exactly if no entry it had before held any of it. */
  lemma QuietMeansBalanced<K, W(!new)>(
    c: Config, ss: seq<Sys<K, W>>, es: seq<Event<K, W>>, replies: seq<Option<Reply>>, i: nat, q: Query<W>)
    requires Run(c, ss, es, replies) && i <= |es| && ss[i].tally.tasks == map[]
    ensures Counted(ss[i].tally, q) == Due(ss[i].tally.log, q)
    ensures q.scope.Some? ==>
              (CountersOf(ss[i].tally, q.scope.value).Read(q.cls) == Due(ss[i].tally.log, q) <==>
               Lost(ss[i].tally.log, q) == 0)
  {
    RunInv(c, ss, es, replies, i);
    assert Counted(ss[i].tally, q) + Owed(ss[i].tally.tasks, q) == Due(ss[i].tally.log, q);
  }

  /** A submission whose key is held changes no counter and starts nothing. It is answered by what the guard was last told
      of the key: yes exactly if that was an admission, and then a handler is at work on the key, or an acceptance, and
      otherwise the verdict last reported, which was reached for this very key. */
  lemma ReplayChangesNothing<K, W(!new)>(
    c: Config, ss: seq<Sys<K, W>>, es: seq<Event<K, W>>, replies: seq<Option<Reply>>, i: nat)
    requires Run(c, ss, es, replies) && i < |es| && es[i].Submit? && !Admitting(c, ss[i], es[i])
    ensures ss[i + 1].tally == ss[i].tally
    ensures var t, key := ss[i].tally, es[i].key;
            match Told(t.log, key)
            case None => false
            case Some(InFlight) => replies[i] == Some(Yes) && AtWork(t.tasks, key)
            case Some(Accepted) => replies[i] == Some(Yes) && DecidedFor(t.log, key, Accepted)
            case Some(Stale) => replies[i] == Some(StaleShare) && DecidedFor(t.log, key, Stale)
            case Some(LowDiff) => replies[i] == Some(LowDiffShare) && DecidedFor(t.log, key, LowDiff)
            case Some(Bad) => replies[i] == Some(BadShare) && DecidedFor(t.log, key, Bad)
    ensures var told := Told(ss[i].tally.log, es[i].key);
            replies[i] == Some(Yes) <==> told == Some(SG.InFlight) || told == Some(SG.Accepted)
  {
    RunInv(c, ss, es, replies, i + 1);
    assert Follows(c, ss, es, replies, i);
    assert HoldsRight(ss[i + 1].tally, es[i].key, ss[i + 1].guard.entries[es[i].key].outcome);
  }

  // ---- the counters by name ----

  /** How often this verdict was reached, by all workers or by one. */
  function Reached<K, W(==)>(log: seq<Logged<K, W>>, who: Option<W>, v: Verdict): nat {
    if log == [] then 0
    else
      var e := log[|log| - 1];
      Reached(log[..|log| - 1], who, v) +
      if e.LogVerdict? && e.verdict == v && (who.None? || who.value == e.worker) then 1 else 0
  }

  lemma {:induction false} DueByName<K, W>(log: seq<Logged<K, W>>, who: Option<W>)
    ensures Due(log, Query(who, Some(Shares))) == Reached(log, who, Accepted)
    ensures Due(log, Query(who, Some(StaleShares))) == Reached(log, who, Stale)
    ensures Due(log, Query(who, Some(InvalidShares))) == Reached(log, who, LowDiff) + Reached(log, who, Bad)
  {
    if log != [] {
      DueByName(log[..|log| - 1], who);
    }
  }

  function Decisions<K, W>(es: seq<Event<K, W>>, v: Verdict): nat {
    if es == [] then 0
    else Decisions(es[..|es| - 1], v) + if es[|es| - 1].Decide? && es[|es| - 1].verdict == v then 1 else 0
  }

  ghost function Admissions<K, W>(c: Config, ss: seq<Sys<K, W>>, es: seq<Event<K, W>>, n: nat): nat
    requires |ss| == |es| + 1 && n <= |es|
  {
    if n == 0 then 0 else Admissions(c, ss, es, n - 1) + if Admitting(c, ss[n - 1], es[n - 1]) then 1 else 0
  }

  lemma ReachedSnoc<K, W>(log: seq<Logged<K, W>>, e: Logged<K, W>, who: Option<W>, v: Verdict)
    ensures Reached(log + [e], who, v) == Reached(log, who, v) +
              if e.LogVerdict? && e.verdict == v && (who.None? || who.value == e.worker) then 1 else 0
  {
    assert (log + [e])[..|log|] == log;
  }

  /** One step logs a verdict or an admission exactly if it is one. */
  lemma {:induction false} StepLogs<K, W>(s: Tally<K, W>, e: Event<K, W>, admitted: bool, s': Tally<K, W>, v: Verdict)
    requires TallyStep(s, e, admitted, s') && (admitted ==> e.Submit?)
    ensures Reached(s'.log, None, v) == Reached(s.log, None, v) + if e.Decide? && e.verdict == v then 1 else 0
    ensures Due(s'.log, Query(None, None)) == Due(s.log, Query(None, None)) + if admitted then 1 else 0
  {
    if s'.log != s.log {
      var entry := s'.log[|s.log|];
      assert s'.log == s.log + [entry];
      ReachedSnoc(s.log, entry, None, v);
      DueSnoc(s.log, entry, Query(None, None));
    }
  }

  lemma {:induction false} LogIsRun<K, W>(
    c: Config, ss: seq<Sys<K, W>>, es: seq<Event<K, W>>, replies: seq<Option<Reply>>, i: nat, v: Verdict)
    requires Run(c, ss, es, replies) && i <= |es|
    ensures Reached(ss[i].tally.log, None, v) == Decisions(es[..i], v)
  {
    if i > 0 {
      var p := i - 1;
      LogIsRun(c, ss, es, replies, p, v);
      RunLogs(c, ss, es, replies, p, v);
      DecisionsMore(es, p, v);
    }
  }

  lemma {:induction false} AdmissionsAreRun<K, W>(
    c: Config, ss: seq<Sys<K, W>>, es: seq<Event<K, W>>, replies: seq<Option<Reply>>, i: nat)
    requires Run(c, ss, es, replies) && i <= |es|
    ensures Due(ss[i].tally.log, Query(None, None)) == Admissions(c, ss, es, i)
  {
    if i > 0 {
      AdmissionsAreRun(c, ss, es, replies, i - 1);
      RunLogs(c, ss, es, replies, i - 1, Accepted);
    }
  }

  lemma {:induction false} RunLogs<K, W>(
    c: Config, ss: seq<Sys<K, W>>, es: seq<Event<K, W>>, replies: seq<Option<Reply>>, p: nat, v: Verdict)
    requires Run(c, ss, es, replies) && p < |es|
    ensures Reached(ss[p + 1].tally.log, None, v) ==
            Reached(ss[p].tally.log, None, v) + if es[p].Decide? && es[p].verdict == v then 1 else 0
    ensures Due(ss[p + 1].tally.log, Query(None, None)) ==
            Due(ss[p].tally.log, Query(None, None)) + if Admitting(c, ss[p], es[p]) then 1 else 0
  {
    assert Follows(c, ss, es, replies, p);
    StepLogs(ss[p].tally, es[p], Admitting(c, ss[p], es[p]), ss[p + 1].tally, v);
  }

  lemma {:induction false} DecisionsMore<K, W>(es: seq<Event<K, W>>, p: nat, v: Verdict)
    requires p < |es|
    ensures Decisions(es[..p + 1], v) == Decisions(es[..p], v) + if es[p].Decide? && es[p].verdict == v then 1 else 0
  {
    assert es[..p + 1][..p] == es[..p];
  }

  /** With nothing in flight the overall counters are, by name: shares the shares accepted, stale the duplicate blocks,
      invalid the low-difficulty and the bad ones, and the three together the submissions admitted. */
  lemma QuietByName<K, W(!new)>(c: Config, ss: seq<Sys<K, W>>, es: seq<Event<K, W>>, replies: seq<Option<Reply>>, i: nat)
    requires Run(c, ss, es, replies) && i <= |es| && ss[i].tally.tasks == map[]
    ensures var n := ss[i].tally.overall;
            && n.shares == Decisions(es[..i], Accepted)
            && n.stale == Decisions(es[..i], Stale)
            && n.invalid == Decisions(es[..i], LowDiff) + Decisions(es[..i], Bad)
            && n.shares + n.stale + n.invalid == Admissions(c, ss, es, i)
  {
    QuietMeansBalanced(c, ss, es, replies, i, Query(None, Some(Shares)));
    QuietMeansBalanced(c, ss, es, replies, i, Query(None, Some(StaleShares)));
    QuietMeansBalanced(c, ss, es, replies, i, Query(None, Some(InvalidShares)));
    QuietMeansBalanced(c, ss, es, replies, i, Query(None, None));
    DueByName(ss[i].tally.log, None);
    LogIsRun(c, ss, es, replies, i, Accepted);
    LogIsRun(c, ss, es, replies, i, Stale);
    LogIsRun(c, ss, es, replies, i, LowDiff);
    LogIsRun(c, ss, es, replies, i, Bad);
    AdmissionsAreRun(c, ss, es, replies, i);
  }

  /** The same for one worker, its present entry and what its pruned ones held taken together. */
  lemma QuietWorkerByName<K, W(!new)>(
    c: Config, ss: seq<Sys<K, W>>, es: seq<Event<K, W>>, replies: seq<Option<Reply>>, i: nat, w: W)
    requires Run(c, ss, es, replies) && i <= |es| && ss[i].tally.tasks == map[]
    ensures var log, n := ss[i].tally.log, CountersOf(ss[i].tally, w);
            && n.shares + Lost(log, Query(Some(w), Some(Shares))) == Reached(log, Some(w), Accepted)
            && n.stale + Lost(log, Query(Some(w), Some(StaleShares))) == Reached(log, Some(w), Stale)
            && n.invalid + Lost(log, Query(Some(w), Some(InvalidShares))) ==
               Reached(log, Some(w), LowDiff) + Reached(log, Some(w), Bad)
  {
    QuietMeansBalanced(c, ss, es, replies, i, Query(Some(w), Some(Shares)));
    QuietMeansBalanced(c, ss, es, replies, i, Query(Some(w), Some(StaleShares)));
    QuietMeansBalanced(c, ss, es, replies, i, Query(Some(w), Some(InvalidShares)));
    DueByName(ss[i].tally.log, Some(w));
  }
}
