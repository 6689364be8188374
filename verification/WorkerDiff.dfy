/** Where difficulties come from and go to: the statistics entry a worker name owns, shared by every client that
    logs in under that name, the controller thread that ticks over it, the thread that prunes it, and the
    difficulty each client was last sent. Entries are handed out as handles, so a pruned one may still be written
    to. Every lock taken and every clock reading is one step, and all of them interleave. */
module WorkerDiff {
  import opened KeySpace
  import opened VarDiff

  ghost predicate IsPow2(d: real) {
    exists k: nat :: d == Pow2(k)
  }

  /** What a miner may be sent. */
  ghost predicate Good(clamp: bool, d: real) {
    d >= 1.0 && (clamp ==> IsPow2(d))
  }

  /** The difficulty of a client's first job, from the configured minimum. */
  function InitialDiff(minShareDiff: nat, clamp: bool): real {
    var d := if clamp && minShareDiff > 0 then Pow2(FloorLog2(minShareDiff as real)) else minShareDiff as real;
    if d == 0.0 then 4.0 else d
  }

  lemma InitialDiffGood(minShareDiff: nat, clamp: bool)
    ensures Good(clamp, InitialDiff(minShareDiff, clamp))
    ensures minShareDiff > 0 ==>
              minShareDiff as real / 2.0 < InitialDiff(minShareDiff, clamp) <= minShareDiff as real
    ensures !clamp && minShareDiff > 0 ==> InitialDiff(minShareDiff, clamp) == minShareDiff as real
    ensures minShareDiff == 0 ==> InitialDiff(minShareDiff, clamp) == 4.0
  {
    if minShareDiff > 0 {
      FloorLog2Bounds(minShareDiff as real);
    } else {
      assert 4.0 == Pow2(2);
    }
  }

  /** A worker's difficulty, when its observation window began, and the shares seen since. */
  datatype Stats = Stats(minDiff: real, start: Option<real>, shares: nat)

  function Window(stats: Stats, now: real): real
    requires stats.start.Some?
  {
    Max(now - stats.start.value, 0.0)
  }

  /** What one pass of the controller decides for an entry. */
  function Decision(stats: Stats, now: real, expectedSpm: real, clamp: bool, root: real): Option<real> {
    if stats.start.None? then None
    else NextDiff(stats.minDiff, stats.shares, Window(stats, now), expectedSpm, clamp, root)
  }

  ghost predicate RootFits(stats: Stats, now: real, expectedSpm: real, root: real) {
    stats.start.Some? ==> IsRoot(root, stats.shares, Window(stats, now), expectedSpm)
  }

  /** What the controller may do to a worker's difficulty: follow the window's verdict, no further than to the half
      or the double, and exactly to one of them when clamping. */
  predicate Moved(clamp: bool, stats: Stats, now: real, expectedSpm: real, next: real)
    requires stats.start.Some?
  {
    && Sound(stats.minDiff, Calls(stats.shares, Window(stats, now), expectedSpm), Some(next))
    && (clamp ==> next == 2.0 * stats.minDiff || next == stats.minDiff / 2.0)
  }

  /** A decision is something a miner may be sent, moves the difficulty as said, and needs a window of 30 seconds. */
  lemma DecisionGood(stats: Stats, now: real, expectedSpm: real, clamp: bool, root: real)
    requires stats.minDiff == 0.0 || Good(clamp, stats.minDiff)
    requires RootFits(stats, now, expectedSpm, root)
    ensures var d := Decision(stats, now, expectedSpm, clamp, root);
            d.Some? ==>
              && Good(clamp, d.value) && stats.start.Some? && now - stats.start.value >= 30.0
              && Moved(clamp, stats, now, expectedSpm, d.value)
  {
    if stats.start.Some? && stats.minDiff != 0.0 {
      var window := Window(stats, now);
      if clamp {
        var k: nat :| stats.minDiff == Pow2(k);
        ClampedStep(k, stats.shares, window, expectedSpm, root);
      } else {
        UnclampedStep(stats.minDiff, stats.shares, window, expectedSpm, root);
      }
    }
  }

  /** A move in numbers: up after at least 3 shares in at least 30 seconds, 1.25 times those expected or more; down after
      as many, 0.75 times those expected or fewer, or after 90 seconds with none. */
  predicate CalledFor(stats: Stats, now: real, expectedSpm: real, up: bool)
    requires stats.start.Some?
  {
    var elapsed, observed := now - stats.start.value, 60.0 * stats.shares as real;
    var enough := stats.shares >= 3 && elapsed >= 30.0;
    if up then enough && observed >= 1.25 * Expected(elapsed, expectedSpm)
    else (enough && observed <= 0.75 * Expected(elapsed, expectedSpm)) || (stats.shares == 0 && elapsed >= 90.0)
  }

  lemma MovedMeans(clamp: bool, stats: Stats, now: real, expectedSpm: real, next: real)
    requires stats.start.Some? && Moved(clamp, stats, now, expectedSpm, next)
    ensures next != stats.minDiff && CalledFor(stats, now, expectedSpm, next > stats.minDiff)
  {
    var window := Window(stats, now);
    if window > 0.0 {
      RatioAgainst(stats.shares, window, expectedSpm, 1.25);
      RatioAgainst(stats.shares, window, expectedSpm, 0.75);
    }
  }

  datatype Env = Env(initial: real, expectedSpm: real, clamp: bool)

  /** What a task does under one lock, or when it reads the clock. Times and values read stand in what comes next. */
  datatype Instr =
    | Fetch
    | LookSent
    | Compare(current: real)
    | Deliver(diff: real)
    | DeliverIfNone(diff: real)
    | PutDiff(diff: real)
    | LookStart
    | ReadClock
    | PutStart(time: real)
    | ZeroShares
    | AddShare

  /** `set_client_vardiff` and `start_client_vardiff`. */
  function SetCode(d: real): seq<Instr> {
    [Fetch, PutDiff(d), ReadClock]
  }

  function StartCode(): seq<Instr> {
    [Fetch, LookStart, ReadClock]
  }

  /** What tasks begin with: a client's first job, its login, a later job, a recorded share, and any other look at the
      statistics. */
  predicate IsProgram(env: Env, code: seq<Instr>) {
    || code == [Deliver(env.initial)] + SetCode(env.initial)
    || code == [DeliverIfNone(env.initial)] + SetCode(env.initial)
    || code == [LookSent]
    || code == [Fetch, AddShare]
    || code == [Fetch]
  }

  datatype Task<C> = Task(client: C, code: seq<Instr>, handle: nat)

  /** The controller within a pass: it holds the map's lock from `Looking` on. `seen` is what it read, piece by piece. */
  datatype Ticker =
    | Resting
    | Looking(now: real)
    | GotStart(now: real, start: real)
    | GotShares(now: real, start: real, shares: nat)
    | Moving(now: real, seen: Stats, next: real)
    | Restarting(now: real)
    | Clearing

  /** `live` is the entry the map holds; `moves` lists the times of the passes in which the controller moved it. */
  datatype State<!C> = State(cells: seq<Stats>, live: Option<nat>, sent: map<C, real>, tasks: map<nat, Task<C>>,
                             ticker: Ticker, clock: real, moves: seq<real>)

  datatype Event<C> = Begin(id: nat, client: C, code: seq<Instr>) | Run(id: nat) | Tick(root: real) | Prune | Wait(now: real)

  /** A new entry, seeded with what the asking client was last sent. */
  function Fresh<C>(s: State<C>, c: C): Stats {
    Stats(if c in s.sent && s.sent[c] > 0.0 then s.sent[c] else 0.0, None, 0)
  }

  /** `get_create_stats`. */
  function Fetched<C>(s: State<C>, c: C): State<C> {
    if s.live.Some? then s else s.(cells := s.cells + [Fresh(s, c)], live := Some(|s.cells|))
  }

  function Put<C>(s: State<C>, h: nat, stats: Stats): State<C> {
    if h < |s.cells| then s.(cells := s.cells[h := stats]) else s
  }

  function At<C>(s: State<C>, h: nat): Stats {
    if h < |s.cells| then s.cells[h] else Stats(0.0, None, 0)
  }

  function Compared(current: real, seen: real): seq<Instr> {
    if seen <= 0.0 && current > 0.0 then SetCode(current) + StartCode()
    else if seen != current then [Deliver(seen)] + StartCode()
    else []
  }

  /** The effect of one instruction, apart from a task's own progress. */
  function Effect<C>(s: State<C>, t: Task<C>): State<C>
    requires t.code != []
  {
    match t.code[0]
    case Fetch => Fetched(s, t.client)
    case Deliver(d) => s.(sent := s.sent[t.client := d])
    case DeliverIfNone(d) => if t.client in s.sent then s else s.(sent := s.sent[t.client := d])
    case PutDiff(d) => Put(s, t.handle, At(s, t.handle).(minDiff := d))
    case PutStart(time) => Put(s, t.handle, At(s, t.handle).(start := Some(time)))
    case ZeroShares => Put(s, t.handle, At(s, t.handle).(shares := 0))
    case AddShare => Put(s, t.handle, At(s, t.handle).(shares := At(s, t.handle).shares + 1))
    case _ => s
  }

  /** What is left to do after it. */
  function Rest<C>(s: State<C>, t: Task<C>): seq<Instr>
    requires t.code != []
  {
    match t.code[0]
    case LookSent => if t.client in s.sent then [Fetch, Compare(s.sent[t.client])] else []
    case Compare(current) => Compared(current, At(s, t.handle).minDiff)
    case LookStart => if At(s, t.handle).start.Some? then [] else t.code[1..]
    case ReadClock => [PutStart(s.clock), ZeroShares] + t.code[1..]
    case _ => t.code[1..]
  }

  function Ran<C>(s: State<C>, id: nat): State<C>
    requires id in s.tasks && s.tasks[id].code != []
  {
    var t := s.tasks[id];
    var s' := Effect(s, t);
    var handle := if t.code[0].Fetch? && s'.live.Some? then s'.live.value else t.handle;
    s'.(tasks := s'.tasks[id := Task(t.client, Rest(s, t), handle)])
  }

  /** One access of the controller. */
  function Ticked<C>(env: Env, s: State<C>, root: real): State<C> {
    if s.live.None? then s
    else
      var h := s.live.value;
      match s.ticker
      case Resting => s.(ticker := Looking(s.clock))
      case Looking(now) =>
        s.(ticker := if At(s, h).start.Some? then GotStart(now, At(s, h).start.value) else Resting)
      case GotStart(now, start) => s.(ticker := GotShares(now, start, At(s, h).shares))
      case GotShares(now, start, shares) =>
        var seen := Stats(At(s, h).minDiff, Some(start), shares);
        (match Decision(seen, now, env.expectedSpm, env.clamp, root)
         case None => s.(ticker := Resting)
         case Some(next) => s.(ticker := Moving(now, seen, next)))
      case Moving(now, _, next) =>
        Put(s, h, At(s, h).(minDiff := next)).(ticker := Restarting(now), moves := s.moves + [now])
      case Restarting(now) => Put(s, h, At(s, h).(start := Some(now))).(ticker := Clearing)
      case Clearing => Put(s, h, At(s, h).(shares := 0)).(ticker := Resting)
  }

  function After<C>(env: Env, s: State<C>, e: Event<C>): State<C> {
    match e
    case Begin(id, c, code) => s.(tasks := s.tasks[id := Task(c, code, 0)])
    case Run(id) => if id in s.tasks && s.tasks[id].code != [] then Ran(s, id) else s
    case Tick(root) => Ticked(env, s, root)
    case Prune => s.(live := None)
    case Wait(now) => s.(clock := now)
  }

  /** Clocks do not run backwards, the map's lock keeps others out of it during a pass, the controller's square root is
      one, and a task stores the start of a window at most `lag` after it read the clock for it. */
  ghost predicate Enabled<C>(env: Env, lag: real, s: State<C>, e: Event<C>) {
    match e
    case Begin(id, _, code) => (id in s.tasks ==> s.tasks[id].code == []) && IsProgram(env, code)
    case Run(id) =>
      && id in s.tasks && s.tasks[id].code != []
      && (s.tasks[id].code[0].Fetch? ==> s.ticker.Resting?)
      && (s.tasks[id].code[0].PutStart? ==> s.clock - s.tasks[id].code[0].time <= lag)
    case Tick(root) =>
      s.ticker.GotShares? && s.live.Some? ==>
        RootFits(Stats(At(s, s.live.value).minDiff, Some(s.ticker.start), s.ticker.shares), s.ticker.now, env.expectedSpm, root)
    case Prune => s.ticker.Resting?
    case Wait(now) => s.clock <= now
  }

  // ---- what every step keeps ----

  ghost predicate GoodOrZero(env: Env, d: real) {
    d == 0.0 || Good(env.clamp, d)
  }

  ghost predicate InstrGood(env: Env, i: Instr) {
    match i
    case Compare(d) => Good(env.clamp, d)
    case Deliver(d) => Good(env.clamp, d)
    case DeliverIfNone(d) => Good(env.clamp, d)
    case PutDiff(d) => Good(env.clamp, d)
    case _ => true
  }

  ghost predicate CodeGood(env: Env, code: seq<Instr>) {
    forall i :: 0 <= i < |code| ==> InstrGood(env, code[i])
  }

  /** Every difficulty sent is good, and every difficulty stored anywhere is good or zero. */
  ghost predicate AllGood<C>(env: Env, s: State<C>) {
    && (forall c :: c in s.sent ==> Good(env.clamp, s.sent[c]))
    && (forall h :: 0 <= h < |s.cells| ==> GoodOrZero(env, s.cells[h].minDiff))
    && (forall id :: id in s.tasks ==> CodeGood(env, s.tasks[id].code))
  }

  /** The map's entry exists, and stays while the controller holds the lock. */
  ghost predicate Placed<C>(s: State<C>) {
    && (s.live.Some? ==> s.live.value < |s.cells|)
    && (!s.ticker.Resting? ==> s.live.Some?)
  }

  /** What the controller is about to write it decided, as `Moved` says, on what it read. */
  ghost predicate TickerGood<C>(env: Env, s: State<C>) {
    s.ticker.Moving? ==>
      && s.ticker.seen.start.Some? && Good(env.clamp, s.ticker.next)
      && s.ticker.now - s.ticker.seen.start.value >= MIN_ELAPSED
      && Moved(env.clamp, s.ticker.seen, s.ticker.now, env.expectedSpm, s.ticker.next)
  }

  ghost predicate Spaced(moves: seq<real>, lag: real) {
    forall i :: 0 < i < |moves| ==> moves[i] - moves[i - 1] >= MIN_ELAPSED - lag
  }

  function Last(moves: seq<real>): real
    requires moves != []
  {
    moves[|moves| - 1]
  }

  /** A window start is no earlier than the last move, but for the lag. */
  ghost predicate NotBefore(moves: seq<real>, lag: real, start: real) {
    moves != [] ==> start >= Last(moves) - lag
  }

  ghost predicate TickerTimed<C>(s: State<C>, lag: real) {
    match s.ticker
    case Resting => true
    case Looking(now) => NotBefore(s.moves, 0.0, now)
    case GotStart(now, start) => NotBefore(s.moves, 0.0, now) && NotBefore(s.moves, lag, start)
    case GotShares(now, start, _) => NotBefore(s.moves, 0.0, now) && NotBefore(s.moves, lag, start)
    case Moving(now, seen, _) =>
      NotBefore(s.moves, 0.0, now) && seen.start.Some? && NotBefore(s.moves, lag, seen.start.value)
    case Restarting(now) => s.moves != [] && Last(s.moves) == now
    case Clearing => true
  }

  ghost predicate Timed<C>(s: State<C>, lag: real) {
    && Spaced(s.moves, lag) && TickerTimed(s, lag)
    && NotBefore(s.moves, 0.0, s.clock)
    && (s.ticker.Looking? || s.ticker.GotStart? || s.ticker.GotShares? || s.ticker.Moving? || s.ticker.Restarting? ==>
          s.ticker.now <= s.clock)
    && (s.live.Some? && !s.ticker.Restarting? && At(s, s.live.value).start.Some? ==>
          NotBefore(s.moves, lag, At(s, s.live.value).start.value))
  }

  lemma RestGood<C>(env: Env, s: State<C>, t: Task<C>)
    requires AllGood(env, s) && t.code != [] && CodeGood(env, t.code)
    ensures CodeGood(env, Rest(s, t))
  {
    assert InstrGood(env, t.code[0]);
    if t.code[0].Compare? {
      assert GoodOrZero(env, At(s, t.handle).minDiff);
    }
  }

  lemma EffectGood<C>(env: Env, s: State<C>, t: Task<C>)
    requires AllGood(env, s) && t.code != [] && CodeGood(env, t.code)
    ensures AllGood(env, Effect(s, t)) && Effect(s, t).tasks == s.tasks
  {
    assert InstrGood(env, t.code[0]);
    assert GoodOrZero(env, At(s, t.handle).minDiff);
  }

  lemma RunGood<C>(env: Env, s: State<C>, id: nat)
    requires AllGood(env, s) && id in s.tasks && s.tasks[id].code != []
    ensures AllGood(env, Ran(s, id))
  {
    EffectGood(env, s, s.tasks[id]);
    RestGood(env, s, s.tasks[id]);
  }

  lemma EffectPlaced<C>(s: State<C>, t: Task<C>)
    requires Placed(s) && t.code != []
    ensures Placed(Effect(s, t)) && Effect(s, t).ticker == s.ticker && Effect(s, t).clock == s.clock
    ensures Effect(s, t).moves == s.moves && |Effect(s, t).cells| >= |s.cells|
  {
  }

  /** A task changes the window start of the map's entry only by storing one, or by making a new entry without. */
  lemma EffectStart<C>(s: State<C>, t: Task<C>)
    requires Placed(s) && t.code != []
    ensures var s' := Effect(s, t);
            s'.live.Some? ==>
              || (t.code[0].PutStart? && At(s', s'.live.value).start == Some(t.code[0].time))
              || At(s', s'.live.value).start == None
              || (s.live == s'.live && At(s', s'.live.value).start == At(s, s.live.value).start)
  {
  }

  lemma RunTimed<C>(env: Env, lag: real, s: State<C>, id: nat)
    requires Placed(s) && Timed(s, lag) && Enabled(env, lag, s, Run(id))
    ensures Placed(Ran(s, id)) && Timed(Ran(s, id), lag)
  {
    EffectPlaced(s, s.tasks[id]);
    EffectStart(s, s.tasks[id]);
  }

  lemma TickGood<C>(env: Env, lag: real, s: State<C>, root: real)
    requires AllGood(env, s) && Placed(s) && TickerGood(env, s) && Enabled(env, lag, s, Tick(root))
    ensures AllGood(env, Ticked(env, s, root)) && Placed(Ticked(env, s, root)) && TickerGood(env, Ticked(env, s, root))
  {
    if s.live.Some? && s.ticker.GotShares? {
      var seen := Stats(At(s, s.live.value).minDiff, Some(s.ticker.start), s.ticker.shares);
      assert GoodOrZero(env, seen.minDiff);
      DecisionGood(seen, s.ticker.now, env.expectedSpm, env.clamp, root);
    }
  }

  lemma MoveSpaced(moves: seq<real>, lag: real, now: real)
    requires Spaced(moves, lag) && (moves != [] ==> now - Last(moves) >= MIN_ELAPSED - lag)
    ensures Spaced(moves + [now], lag) && Last(moves + [now]) == now
  {
  }

  lemma TickTimed<C>(env: Env, lag: real, s: State<C>, root: real)
    requires lag >= 0.0 && Placed(s) && TickerGood(env, s) && Timed(s, lag)
    ensures Timed(Ticked(env, s, root), lag)
  {
    if s.live.Some? && s.ticker.Moving? {
      MoveSpaced(s.moves, lag, s.ticker.now);
    }
  }

  ghost predicate Inv<C>(env: Env, lag: real, s: State<C>) {
    AllGood(env, s) && Placed(s) && TickerGood(env, s) && Timed(s, lag)
  }

  lemma BeginKeeps<C>(env: Env, lag: real, s: State<C>, e: Event<C>)
    requires Good(env.clamp, env.initial) && Inv(env, lag, s) && e.Begin? && IsProgram(env, e.code)
    ensures Inv(env, lag, After(env, s, e))
  {
    assert CodeGood(env, e.code);
  }

  lemma OutsideKeeps<C>(env: Env, lag: real, s: State<C>, e: Event<C>)
    requires Inv(env, lag, s) && Enabled(env, lag, s, e) && (e.Prune? || e.Wait?)
    ensures Inv(env, lag, After(env, s, e))
  {
  }

  lemma StepKeeps<C>(env: Env, lag: real, s: State<C>, e: Event<C>)
    requires Good(env.clamp, env.initial) && lag >= 0.0 && Inv(env, lag, s) && Enabled(env, lag, s, e)
    ensures Inv(env, lag, After(env, s, e))
  {
    match e
    case Run(id) =>
      RunGood(env, s, id);
      RunTimed(env, lag, s, id);
    case Tick(root) =>
      TickGood(env, lag, s, root);
      TickTimed(env, lag, s, root);
    case Begin(_, _, code) => BeginKeeps(env, lag, s, e);
    case _ => OutsideKeeps(env, lag, s, e);
  }

  function Started<C>(now: real): State<C> {
    State([], None, map[], map[], Resting, now, [])
  }

  ghost predicate Follows<C>(env: Env, lag: real, states: seq<State<C>>, events: seq<Event<C>>, i: nat)
    requires i < |events| && |states| == |events| + 1
  {
    Enabled(env, lag, states[i], events[i]) && states[i + 1] == After(env, states[i], events[i])
  }

  /** A run from no entry, no client and no task, in which window starts are stored within `lag`. */
  ghost predicate IsRun<C>(env: Env, lag: real, states: seq<State<C>>, events: seq<Event<C>>) {
    && |states| == |events| + 1 && states[0] == Started(states[0].clock) && lag >= 0.0
    && forall i :: 0 <= i < |events| ==> Follows(env, lag, states, events, i)
  }

  /** On every interleaving of any number of tasks of any number of clients with controller and pruning: every difficulty
      sent is good, every stored one is good or zero, and whatever the controller writes it decided as `Moved` says. */
  lemma {:induction false} RunKeeps<C>(
    minShareDiff: nat, env: Env, lag: real, states: seq<State<C>>, events: seq<Event<C>>, i: nat)
    requires env.initial == InitialDiff(minShareDiff, env.clamp)
    requires IsRun(env, lag, states, events) && i < |states|
    ensures Inv(env, lag, states[i])
  {
    InitialDiffGood(minShareDiff, env.clamp);
    if i > 0 {
      RunKeeps(minShareDiff, env, lag, states, events, i - 1);
      assert Follows(env, lag, states, events, i - 1);
      StepKeeps(env, lag, states[i - 1], events[i - 1]);
    }
  }

  /** On every run, whenever the controller moves a difficulty, what it stores is what it decided on what it read, as
      `Moved` says. */
  lemma {:induction false} RunMoves<C>(
    minShareDiff: nat, env: Env, lag: real, states: seq<State<C>>, events: seq<Event<C>>, i: nat)
    requires env.initial == InitialDiff(minShareDiff, env.clamp)
    requires IsRun(env, lag, states, events) && i < |events| && states[i + 1].moves != states[i].moves
    ensures var s, s' := states[i], states[i + 1];
            && s.ticker.Moving? && s.live.Some? && s'.moves == s.moves + [s.ticker.now]
            && At(s', s.live.value).minDiff == s.ticker.next
            && s.ticker.seen.start.Some? && Good(env.clamp, s.ticker.next)
            && Moved(env.clamp, s.ticker.seen, s.ticker.now, env.expectedSpm, s.ticker.next)
            && CalledFor(s.ticker.seen, s.ticker.now, env.expectedSpm, s.ticker.next > s.ticker.seen.minDiff)
  {
    RunKeeps(minShareDiff, env, lag, states, events, i);
    if states[i].ticker.Moving? {
      MovedMeans(env.clamp, states[i].ticker.seen, states[i].ticker.now, env.expectedSpm, states[i].ticker.next);
    }
    assert Follows(env, lag, states, events, i);
    if events[i].Run? {
      EffectPlaced(states[i], states[i].tasks[events[i].id]);
    }
  }

  lemma {:induction false} SpacedAdds(moves: seq<real>, lag: real, i: nat, j: nat)
    requires Spaced(moves, lag) && i <= j < |moves|
    ensures moves[j] - moves[i] >= (MIN_ELAPSED - lag) * (j - i) as real
    decreases j
  {
    if i < j {
      SpacedAdds(moves, lag, i, j - 1);
    }
  }

  /** On every run, whatever clients and pruning do to the entry meanwhile: two moves of the controller with n - 1 others
      between them are at least n times thirty seconds apart, but for the lag between reading the clock and storing a
      window start. */
  lemma {:induction false} MovesTakeTime<C>(
    minShareDiff: nat, env: Env, lag: real, states: seq<State<C>>, events: seq<Event<C>>, k: nat, i: nat, j: nat)
    requires env.initial == InitialDiff(minShareDiff, env.clamp)
    requires IsRun(env, lag, states, events) && k < |states| && i <= j < |states[k].moves|
    ensures states[k].moves[j] - states[k].moves[i] >= (30.0 - lag) * (j - i) as real
  {
    RunKeeps(minShareDiff, env, lag, states, events, k);
    SpacedAdds(states[k].moves, lag, i, j);
  }
}
