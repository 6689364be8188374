/** The worker statistics of `bridge/src/share_handler.rs` and `bridge/src/client_handler.rs` call by call: what the
    accesses of one call come to when nothing happens in between, and the calls themselves. */
module WorkerStats {
  import opened KeySpace
  import opened VarDiff
  import opened WorkerDiff

  function WasSet<C>(s: State<C>, c: C, d: real): State<C> {
    var s' := Fetched(s, c);
    if s'.live.Some? then Put(s', s'.live.value, Stats(d, Some(s.clock), 0)) else s'
  }

  function WasStarted<C>(s: State<C>, c: C): State<C> {
    var s' := Fetched(s, c);
    if s'.live.None? || At(s', s'.live.value).start.Some? then s'
    else Put(s', s'.live.value, At(s', s'.live.value).(start := Some(s.clock), shares := 0))
  }

  /** A whole pass over the entry. */
  function WasTicked<C>(env: Env, s: State<C>, root: real): State<C> {
    if s.live.None? then s
    else
      match Decision(At(s, s.live.value), s.clock, env.expectedSpm, env.clamp, root)
      case None => s
      case Some(next) => Put(s, s.live.value, Stats(next, Some(s.clock), 0)).(moves := s.moves + [s.clock])
  }

  function Doing<C>(s: State<C>, id: nat, t: Task<C>): State<C> {
    s.(tasks := s.tasks[id := t])
  }

  ghost predicate RunsAt<C>(id: nat, ss: seq<State<C>>, i: nat)
    requires i + 1 < |ss|
  {
    id in ss[i].tasks && ss[i].tasks[id].code != [] && ss[i + 1] == Ran(ss[i], id)
  }

  /** Task `id` runs from the first state to the last with nothing in between. */
  ghost predicate Alone<C>(id: nat, ss: seq<State<C>>) {
    ss != [] && forall i :: 0 <= i < |ss| - 1 ==> RunsAt(id, ss, i)
  }

  lemma {:induction false} AloneOn<C>(id: nat, ss: seq<State<C>>, p: State<C>, t: Task<C>, p': State<C>, t': Task<C>)
    returns (ss': seq<State<C>>)
    requires Alone(id, ss) && ss[|ss| - 1] == Doing(p, id, t) && t.code != []
    requires Effect(Doing(p, id, t), t) == Doing(p', id, t) && Rest(Doing(p, id, t), t) == t'.code && t'.client == t.client
    requires t'.handle == if t.code[0].Fetch? && p'.live.Some? then p'.live.value else t.handle
    ensures Alone(id, ss') && ss'[0] == ss[0] && ss'[|ss'| - 1] == Doing(p', id, t')
  {
    assert Doing(p', id, t).tasks[id := t'] == Doing(p', id, t').tasks;
    ss' := ss + [Doing(p', id, t')];
    forall i | 0 <= i < |ss'| - 1
      ensures RunsAt(id, ss', i)
    {
      assert i < |ss| - 1 ==> RunsAt(id, ss, i);
    }
  }

  lemma {:induction false} ClockAlone<C>(id: nat, ss: seq<State<C>>, p: State<C>, c: C, h: nat, rest: seq<Instr>)
    returns (ss': seq<State<C>>)
    requires Alone(id, ss) && ss[|ss| - 1] == Doing(p, id, Task(c, [ReadClock] + rest, h))
    ensures Alone(id, ss') && ss'[0] == ss[0]
    ensures ss'[|ss'| - 1] == Doing(p, id, Task(c, [PutStart(p.clock)] + ([ZeroShares] + rest), h))
  {
    assert ([ReadClock] + rest)[1..] == rest;
    assert [PutStart(p.clock), ZeroShares] + rest == [PutStart(p.clock)] + ([ZeroShares] + rest);
    ss' := AloneOn(id, ss, p, Task(c, [ReadClock] + rest, h), p, Task(c, [PutStart(p.clock)] + ([ZeroShares] + rest), h));
  }

  function Changed(i: Instr, stats: Stats): Stats {
    match i
    case PutDiff(d) => stats.(minDiff := d)
    case PutStart(time) => stats.(start := Some(time))
    case ZeroShares => stats.(shares := 0)
    case _ => stats
  }

  lemma {:induction false} PutAlone<C>(id: nat, ss: seq<State<C>>, p: State<C>, c: C, h: nat, i: Instr, rest: seq<Instr>)
    returns (ss': seq<State<C>>)
    requires Alone(id, ss) && ss[|ss| - 1] == Doing(p, id, Task(c, [i] + rest, h)) && h < |p.cells|
    requires i.PutDiff? || i.PutStart? || i.ZeroShares?
    ensures Alone(id, ss') && ss'[0] == ss[0]
    ensures ss'[|ss'| - 1] == Doing(Put(p, h, Changed(i, p.cells[h])), id, Task(c, rest, h))
  {
    assert ([i] + rest)[1..] == rest;
    ss' := AloneOn(id, ss, p, Task(c, [i] + rest, h), Put(p, h, Changed(i, p.cells[h])), Task(c, rest, h));
  }

  lemma PutTwice<C>(p: State<C>, h: nat, x: Stats, y: Stats)
    requires h < |p.cells|
    ensures Put(Put(p, h, x), h, y) == Put(p, h, y) && |Put(p, h, x).cells| == |p.cells| && Put(p, h, x).cells[h] == x
  {
    assert p.cells[h := x][h := y] == p.cells[h := y];
  }

  /** Reading the clock and storing it as the start of a new window. */
  lemma {:induction false} WindowAlone<C>(id: nat, ss: seq<State<C>>, p: State<C>, c: C, h: nat, rest: seq<Instr>)
    returns (ss': seq<State<C>>)
    requires Alone(id, ss) && ss[|ss| - 1] == Doing(p, id, Task(c, [ReadClock] + rest, h)) && h < |p.cells|
    ensures Alone(id, ss') && ss'[0] == ss[0]
    ensures ss'[|ss'| - 1] == Doing(Put(p, h, p.cells[h].(start := Some(p.clock), shares := 0)), id, Task(c, rest, h))
  {
    var x, y := p.cells[h].(start := Some(p.clock)), p.cells[h].(start := Some(p.clock), shares := 0);
    PutTwice(p, h, x, y);
    ss' := ClockAlone(id, ss, p, c, h, rest);
    ss' := PutAlone(id, ss', p, c, h, PutStart(p.clock), [ZeroShares] + rest);
    ss' := PutAlone(id, ss', Put(p, h, x), c, h, ZeroShares, rest);
  }

  /** A task fetches the entry. */
  lemma {:induction false} FetchOn<C>(id: nat, ss: seq<State<C>>, p: State<C>, c: C, h: nat, rest: seq<Instr>)
    returns (ss': seq<State<C>>)
    requires Alone(id, ss) && Placed(p) && ss[|ss| - 1] == Doing(p, id, Task(c, [Fetch] + rest, h))
    ensures Fetched(p, c).live.Some? && Fetched(p, c).live.value < |Fetched(p, c).cells|
    ensures Alone(id, ss') && ss'[0] == ss[0]
    ensures ss'[|ss'| - 1] == Doing(Fetched(p, c), id, Task(c, rest, Fetched(p, c).live.value))
  {
    assert ([Fetch] + rest)[1..] == rest;
    ss' := AloneOn(id, ss, p, Task(c, [Fetch] + rest, h), Fetched(p, c), Task(c, rest, Fetched(p, c).live.value));
  }

  lemma {:induction false} SetOn<C>(id: nat, ss: seq<State<C>>, s: State<C>, c: C, h: nat, d: real, rest: seq<Instr>)
    returns (ss': seq<State<C>>, h': nat)
    requires Alone(id, ss) && Placed(s) && ss[|ss| - 1] == Doing(s, id, Task(c, SetCode(d) + rest, h))
    ensures Alone(id, ss') && ss'[0] == ss[0] && ss'[|ss'| - 1] == Doing(WasSet(s, c, d), id, Task(c, rest, h'))
  {
    var p, afterFetch := Fetched(s, c), [PutDiff(d)] + ([ReadClock] + rest);
    assert SetCode(d) + rest == [Fetch] + afterFetch;
    ss' := FetchOn(id, ss, s, c, h, afterFetch);
    h' := p.live.value;
    var x := p.cells[h'].(minDiff := d);
    ss' := PutAlone(id, ss', p, c, h', PutDiff(d), [ReadClock] + rest);
    PutTwice(p, h', x, Stats(d, Some(s.clock), 0));
    ss' := WindowAlone(id, ss', Put(p, h', x), c, h', rest);
  }

  lemma {:induction false} StartOn<C>(id: nat, ss: seq<State<C>>, s: State<C>, c: C, h: nat) returns (ss': seq<State<C>>, h': nat)
    requires Alone(id, ss) && Placed(s) && ss[|ss| - 1] == Doing(s, id, Task(c, StartCode(), h))
    ensures Alone(id, ss') && ss'[0] == ss[0] && ss'[|ss'| - 1] == Doing(WasStarted(s, c), id, Task(c, [], h'))
  {
    var p := Fetched(s, c);
    assert StartCode() == [Fetch] + [LookStart, ReadClock];
    ss' := FetchOn(id, ss, s, c, h, [LookStart, ReadClock]);
    h' := p.live.value;
    if p.cells[h'].start.Some? {
      ss' := AloneOn(id, ss', p, Task(c, [LookStart, ReadClock], h'), p, Task(c, [], h'));
    } else {
      assert [LookStart, ReadClock][1..] == [ReadClock] && [ReadClock] + [] == [ReadClock];
      ss' := AloneOn(id, ss', p, Task(c, [LookStart, ReadClock], h'), p, Task(c, [ReadClock], h'));
      ss' := WindowAlone(id, ss', p, c, h', []);
    }
  }

  lemma AlreadyDoing<C>(s: State<C>, id: nat, t: Task<C>)
    requires id in s.tasks && s.tasks[id] == t
    ensures Alone(id, [s]) && s == Doing(s, id, t)
  {
    assert s.tasks[id := t] == s.tasks;
  }

  /** The accesses of `set_client_vardiff`, undisturbed, come to what the call is for. */
  lemma {:induction false} SetAlone<C>(s: State<C>, id: nat, c: C, h: nat, d: real, rest: seq<Instr>)
    returns (ss: seq<State<C>>, h': nat)
    requires Placed(s) && id in s.tasks && s.tasks[id] == Task(c, SetCode(d) + rest, h)
    ensures Alone(id, ss) && ss[0] == s && ss[|ss| - 1] == Doing(WasSet(s, c, d), id, Task(c, rest, h'))
  {
    AlreadyDoing(s, id, Task(c, SetCode(d) + rest, h));
    ss, h' := SetOn(id, [s], s, c, h, d, rest);
  }

  /** So do those of `start_client_vardiff`. */
  lemma {:induction false} StartAlone<C>(s: State<C>, id: nat, c: C, h: nat) returns (ss: seq<State<C>>, h': nat)
    requires Placed(s) && id in s.tasks && s.tasks[id] == Task(c, StartCode(), h)
    ensures Alone(id, ss) && ss[0] == s && ss[|ss| - 1] == Doing(WasStarted(s, c), id, Task(c, [], h'))
  {
    AlreadyDoing(s, id, Task(c, StartCode(), h));
    ss, h' := StartOn(id, [s], s, c, h);
  }

  /** A recorded share, undisturbed, is one more in the worker's window. */
  lemma {:induction false} ShareAlone<C>(s: State<C>, id: nat, c: C, h: nat) returns (ss: seq<State<C>>, p: State<C>)
    requires Placed(s) && id in s.tasks && s.tasks[id] == Task(c, [Fetch, AddShare], h)
    ensures Alone(id, ss) && ss[0] == s && ss[|ss| - 1] == p && p.live.Some? && p.sent == s.sent
    ensures var entry := At(Fetched(s, c), p.live.value); At(p, p.live.value) == entry.(shares := entry.shares + 1)
  {
    AlreadyDoing(s, id, Task(c, [Fetch, AddShare], h));
    var f := Fetched(s, c);
    assert [Fetch, AddShare] == [Fetch] + [AddShare];
    ss := FetchOn(id, [s], s, c, h, [AddShare]);
    var h' := f.live.value;
    var q := Put(f, h', f.cells[h'].(shares := f.cells[h'].shares + 1));
    assert [AddShare][1..] == [];
    ss := AloneOn(id, ss, f, Task(c, [AddShare], h'), q, Task(c, [], h'));
    p := ss[|ss| - 1];
  }

  /** A client's first job, undisturbed: it is sent the configured difficulty, and so is the worker's entry set. */
  lemma {:induction false} FirstJobAlone<C>(s: State<C>, id: nat, c: C, h: nat, d: real) returns (ss: seq<State<C>>, p: State<C>)
    requires Placed(s) && id in s.tasks && s.tasks[id] == Task(c, [Deliver(d)] + SetCode(d), h)
    ensures Alone(id, ss) && ss[0] == s && ss[|ss| - 1] == p && p.sent == s.sent[c := d]
    ensures p.live.Some? && At(p, p.live.value) == Stats(d, Some(s.clock), 0)
  {
    AlreadyDoing(s, id, Task(c, [Deliver(d)] + SetCode(d), h));
    var q := s.(sent := s.sent[c := d]);
    assert ([Deliver(d)] + SetCode(d))[1..] == SetCode(d) && SetCode(d) + [] == SetCode(d);
    ss := AloneOn(id, [s], s, Task(c, [Deliver(d)] + SetCode(d), h), q, Task(c, SetCode(d) + [], h));
    var h';
    ss, h' := SetOn(id, ss, q, c, h, d, []);
    p := ss[|ss| - 1];
  }

  /** What a client is to be sent: the worker's difficulty, or its own where the entry was lost. */
  function DueTo<C>(s: State<C>, c: C): real
    requires c in s.sent
  {
    var f := Fetched(s, c);
    if f.live.Some? && At(f, f.live.value).minDiff > 0.0 then At(f, f.live.value).minDiff else s.sent[c]
  }

  /** A later job, undisturbed: the client ends up with that difficulty, and so does the worker's entry. */
  lemma {:induction false} RefreshAlone<C>(s: State<C>, id: nat, c: C, h: nat) returns (ss: seq<State<C>>, p: State<C>)
    requires Placed(s) && id in s.tasks && s.tasks[id] == Task(c, [LookSent], h) && c in s.sent && s.sent[c] > 0.0
    ensures Alone(id, ss) && ss[0] == s && ss[|ss| - 1] == p && p.sent == s.sent[c := DueTo(s, c)]
    ensures p.live.Some? && At(p, p.live.value).minDiff == DueTo(s, c)
  {
    var current, f := s.sent[c], Fetched(s, c);
    AlreadyDoing(s, id, Task(c, [LookSent], h));
    ss := AloneOn(id, [s], s, Task(c, [LookSent], h), s, Task(c, [Fetch] + [Compare(current)], h));
    ss := FetchOn(id, ss, s, c, h, [Compare(current)]);
    var h' := f.live.value;
    var seen := At(f, h').minDiff;
    ss := AloneOn(id, ss, f, Task(c, [Compare(current)], h'), f, Task(c, Compared(current, seen), h'));
    if seen <= 0.0 {
      ss, h' := SetOn(id, ss, f, c, h', current, StartCode());
      ss, h' := StartOn(id, ss, WasSet(f, c, current), c, h');
    } else if seen != current {
      var q := f.(sent := f.sent[c := seen]);
      assert ([Deliver(seen)] + StartCode())[1..] == StartCode();
      ss := AloneOn(id, ss, f, Task(c, [Deliver(seen)] + StartCode(), h'), q, Task(c, StartCode(), h'));
      ss, h' := StartOn(id, ss, q, c, h');
    }
    p := ss[|ss| - 1];
    assert s.sent[c := current] == s.sent;
  }

  function Ticks<C>(env: Env, s: State<C>, root: real, n: nat): State<C> {
    if n == 0 then s else Ticked(env, Ticks(env, s, root, n - 1), root)
  }

  lemma {:induction false} TicksOn<C>(env: Env, s: State<C>, root: real, n: nat, p: State<C>, p': State<C>)
    requires Ticks(env, s, root, n) == p && Ticked(env, p, root) == p'
    ensures Ticks(env, s, root, n + 1) == p'
  {
  }

  /** And the controller's accesses come to a whole pass. */
  lemma {:induction false} TickAlone<C>(env: Env, s: State<C>, root: real) returns (n: nat)
    requires Placed(s) && s.ticker == Resting
    ensures Ticks(env, s, root, n) == WasTicked(env, s, root)
  {
    n := 0;
    if s.live.Some? {
      var now, stats := s.clock, At(s, s.live.value);
      TicksOn(env, s, root, 0, s, s.(ticker := Looking(now)));
      if stats.start.None? {
        TicksOn(env, s, root, 1, s.(ticker := Looking(now)), s);
        n := 2;
      } else {
        n := TickReadsAlone(env, s, root);
      }
    }
  }

  /** A pass in numbers, for a clamped entry at 2^k whose window began at `start`: what it becomes, with a new window and
      no shares, or that it is left alone. */
  lemma {:induction false} TickByNumbers<C>(env: Env, s: State<C>, root: real, k: nat, start: real)
    requires Placed(s) && s.live.Some? && env.clamp && s.clock >= start
    requires At(s, s.live.value).minDiff == Pow2(k) && At(s, s.live.value).start == Some(start)
    requires s.clock > start ==> IsRateRoot(root, At(s, s.live.value).shares, s.clock - start, env.expectedSpm)
    ensures var shares, elapsed := At(s, s.live.value).shares, s.clock - start;
            var after := At(WasTicked(env, s, root), s.live.value);
            after ==
            if shares >= 3 && elapsed >= 30.0 && 60.0 * shares as real >= 1.25 * Expected(elapsed, env.expectedSpm) then
              Stats(Pow2(k + 1), Some(s.clock), 0)
            else if k >= 1 && (if shares == 0 then elapsed >= 90.0
                               else shares >= 3 && elapsed >= 30.0
                                    && 60.0 * shares as real <= 0.75 * Expected(elapsed, env.expectedSpm)) then
              Stats(Pow2(k - 1), Some(s.clock), 0)
            else
              At(s, s.live.value)
  {
    var stats := At(s, s.live.value);
    ClampedByNumbers(k, stats.shares, s.clock - start, env.expectedSpm, root);
  }

  lemma {:induction false} TickReadsAlone<C>(env: Env, s: State<C>, root: real) returns (n: nat)
    requires Placed(s) && s.ticker == Resting && s.live.Some? && At(s, s.live.value).start.Some?
    requires Ticks(env, s, root, 1) == s.(ticker := Looking(s.clock))
    ensures Ticks(env, s, root, n) == WasTicked(env, s, root)
  {
    var h, now, stats := s.live.value, s.clock, At(s, s.live.value);
    var s2 := s.(ticker := GotStart(now, stats.start.value));
    var s3 := s.(ticker := GotShares(now, stats.start.value, stats.shares));
    TicksOn(env, s, root, 1, s.(ticker := Looking(now)), s2);
    TicksOn(env, s, root, 2, s2, s3);
    assert Stats(stats.minDiff, Some(stats.start.value), stats.shares) == stats;
    match Decision(stats, now, env.expectedSpm, env.clamp, root)
    case None =>
      TicksOn(env, s, root, 3, s3, s);
      n := 4;
    case Some(next) =>
      TicksOn(env, s, root, 3, s3, s.(ticker := Moving(now, stats, next)));
      n := TickWritesAlone(env, s, root, stats, next);
  }

  lemma {:induction false} TickWritesAlone<C>(env: Env, s: State<C>, root: real, stats: Stats, next: real) returns (n: nat)
    requires Placed(s) && s.ticker == Resting && s.live.Some? && At(s, s.live.value) == stats && stats.start.Some?
    requires Ticks(env, s, root, 4) == s.(ticker := Moving(s.clock, stats, next))
    ensures Ticks(env, s, root, n) == Put(s, s.live.value, Stats(next, Some(s.clock), 0)).(moves := s.moves + [s.clock])
  {
    var h, now := s.live.value, s.clock;
    var m := s.(moves := s.moves + [now]);
    var s5 := Put(m, h, stats.(minDiff := next)).(ticker := Restarting(now));
    var s6 := Put(m, h, stats.(minDiff := next, start := Some(now))).(ticker := Clearing);
    var s7 := Put(m, h, Stats(next, Some(now), 0));
    assert s5.cells[h := s6.cells[h]] == s6.cells && s6.cells[h := s7.cells[h]] == s7.cells;
    TicksOn(env, s, root, 4, s.(ticker := Moving(now, stats, next)), s5);
    TicksOn(env, s, root, 5, s5, s6);
    TicksOn(env, s, root, 6, s6, s7);
    n := 7;
  }

  /** One worker name's statistics with the clients that log in under it, as one caller at a time uses them. */
  class Worker<C(==)> {
    const env: Env
    var cells: seq<Stats>
    var live: Option<nat>
    var sent: map<C, real>
    var clock: real
    ghost var tasks: map<nat, Task<C>>
    ghost var ticker: Ticker
    ghost var moves: seq<real>

    ghost function Abs(): State<C>
      reads this
    {
      State(cells, live, sent, tasks, ticker, clock, moves)
    }

    constructor (env: Env, now: real)
      ensures this.env == env && Abs() == Started(now)
    {
      this.env := env;
      cells, live, sent, clock := [], None, map[], now;
      tasks, ticker, moves := map[], Resting, [];
    }

    method GetCreateStats(c: C) returns (h: nat)
      requires Placed(Abs())
      modifies this`cells, this`live
      ensures Abs() == Fetched(old(Abs()), c) && Placed(Abs()) && live == Some(h) && h < |cells|
    {
      if live.Some? {
        return live.value;
      }
      var seeded := if c in sent then sent[c] else 0.0;
      var stats := Stats(0.0, None, 0);
      if seeded > 0.0 {
        stats := stats.(minDiff := seeded);
      }
      h := |cells|;
      cells, live := cells + [stats], Some(h);
    }

    method SetClientVardiff(c: C, minDiff: real) returns (previous: real)
      requires Placed(Abs())
      modifies this`cells, this`live
      ensures Placed(Abs()) && Abs() == WasSet(old(Abs()), c, minDiff)
      ensures previous == At(Fetched(old(Abs()), c), live.value).minDiff
      ensures live.Some? && At(Abs(), live.value) == Stats(minDiff, Some(clock), 0)
    {
      var h := GetCreateStats(c);
      previous := cells[h].minDiff;
      cells := cells[h := Stats(minDiff, Some(clock), 0)];
    }

    method GetClientVardiff(c: C) returns (minDiff: real)
      requires Placed(Abs())
      modifies this`cells, this`live
      ensures Placed(Abs()) && Abs() == Fetched(old(Abs()), c) && live.Some? && minDiff == At(Abs(), live.value).minDiff
    {
      var h := GetCreateStats(c);
      minDiff := cells[h].minDiff;
    }

    method StartClientVardiff(c: C)
      requires Placed(Abs())
      modifies this`cells, this`live
      ensures Placed(Abs()) && Abs() == WasStarted(old(Abs()), c)
      ensures live.Some?
      ensures var entry := At(Fetched(old(Abs()), c), live.value);
              At(Abs(), live.value) == if entry.start.Some? then entry else Stats(entry.minDiff, Some(clock), 0)
    {
      var h := GetCreateStats(c);
      if cells[h].start.None? {
        cells := cells[h := cells[h].(start := Some(clock), shares := 0)];
      }
    }

    /** The controller's pass over this entry. */
    method RunTick(root: real)
      requires Placed(Abs())
      modifies this`cells, this`moves
      ensures Abs() == WasTicked(env, old(Abs()), root)
      ensures || (moves == old(moves) && cells == old(cells))
              || (&& moves == old(moves) + [clock] && live.Some? && |cells| == |old(cells)|
                  && cells == old(cells)[live.value := Stats(cells[live.value].minDiff, Some(clock), 0)])
    {
      if live.Some? {
        var h := live.value;
        if cells[h].start.Some? {
          var elapsed := Max(clock - cells[h].start.value, 0.0);
          var next := NextDiff(cells[h].minDiff, cells[h].shares, elapsed, env.expectedSpm, env.clamp, root);
          if next.Some? {
            cells := cells[h := Stats(next.value, Some(clock), 0)];
            moves := moves + [clock];
          }
        }
      }
    }

    /** What the entry says a client should be sent: the controller's difficulty, or the client's own where there is none. */
    ghost function Wanted(c: C): real
      reads this
      requires c in sent
    {
      if live.Some? && At(Abs(), live.value).minDiff > 0.0 then At(Abs(), live.value).minDiff else sent[c]
    }

    /** A later job for a client, undisturbed: the client ends up with the worker's difficulty. */
    method Refresh(c: C)
      requires Placed(Abs()) && c in sent && sent[c] > 0.0
      modifies this`cells, this`live, this`sent
      ensures Placed(Abs()) && live.Some? && At(Abs(), live.value).minDiff == old(Wanted(c))
      ensures sent == old(sent)[c := old(Wanted(c))]
    {
      var current := sent[c];
      var varDiff := GetClientVardiff(c);
      if varDiff <= 0.0 && current > 0.0 {
        var _ := SetClientVardiff(c, current);
        StartClientVardiff(c);
        varDiff := current;
      }
      if varDiff != current {
        sent := sent[c := varDiff];
        StartClientVardiff(c);
      }
    }

    /** A new job for a client, undisturbed; the first one comes with the configured difficulty. */
    method NewJob(c: C)
      requires Placed(Abs()) && (c in sent ==> sent[c] > 0.0)
      modifies this`cells, this`live, this`sent
      ensures Placed(Abs()) && live.Some?
      ensures sent == old(sent)[c := At(Abs(), live.value).minDiff]
      ensures At(Abs(), live.value).minDiff == if c in old(sent) then old(Wanted(c)) else env.initial
    {
      if c in sent {
        Refresh(c);
      } else {
        sent := sent[c := env.initial];
        var _ := SetClientVardiff(c, env.initial);
      }
    }
  }
}
