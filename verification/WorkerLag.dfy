/** Why the spacing of the controller's moves needs its lag: a run in which thirty seconds are not kept. */
module WorkerLag {
  import opened KeySpace
  import opened VarDiff
  import opened WorkerDiff

  lemma {:induction false} Extend<C>(env: Env, lag: real, ss: seq<State<C>>, es: seq<Event<C>>, e: Event<C>, s': State<C>)
    returns (ss': seq<State<C>>, es': seq<Event<C>>)
    requires IsRun(env, lag, ss, es) && Enabled(env, lag, ss[|es|], e) && s' == After(env, ss[|es|], e)
    ensures IsRun(env, lag, ss', es') && ss'[|es'|] == s'
  {
    ss', es' := ss + [s'], es + [e];
    forall i | 0 <= i < |es'|
      ensures Follows(env, lag, ss', es', i)
    {
      assert i < |es| ==> Follows(env, lag, ss, es, i);
    }
  }

  lemma Quadruple(d: real)
    requires d == 4.0 || d == 8.0
    ensures IsRoot(2.0, 3, 30.0, 1.5) && NextDiff(d, 3, 30.0, 1.5, false, 2.0) == Some(2.0 * d)
  {
    assert Ratio(3, 30.0, 1.5) == 4.0;
  }

  /** One entry, no pass under way, and the controller's settings as below. */
  ghost predicate Calm<C>(env: Env, s: State<C>) {
    && env == Env(4.0, 1.5, false) && s.live == Some(0) && |s.cells| == 1 && s.ticker == Resting
    && (1 in s.tasks ==> s.tasks[1].code == [])
  }

  lemma {:induction false} OneShare<C>(env: Env, lag: real, ss: seq<State<C>>, es: seq<Event<C>>, s: State<C>, c: C)
    returns (ss': seq<State<C>>, es': seq<Event<C>>)
    requires IsRun(env, lag, ss, es) && ss[|es|] == s && Calm(env, s)
    ensures IsRun(env, lag, ss', es')
    ensures ss'[|es'|] == s.(cells := [s.cells[0].(shares := s.cells[0].shares + 1)], tasks := s.tasks[1 := Task(c, [], 0)])
  {
    var s1 := s.(tasks := s.tasks[1 := Task(c, [Fetch, AddShare], 0)]);
    var s2 := s.(tasks := s.tasks[1 := Task(c, [AddShare], 0)]);
    var s3 := s.(cells := [s.cells[0].(shares := s.cells[0].shares + 1)], tasks := s.tasks[1 := Task(c, [], 0)]);
    ss', es' := Extend(env, lag, ss, es, Begin(1, c, [Fetch, AddShare]), s1);
    assert s1.tasks[1 := Task(c, [AddShare], 0)] == s2.tasks && [Fetch, AddShare][1..] == [AddShare];
    ss', es' := Extend(env, lag, ss', es', Run(1), s2);
    assert s2.tasks[1 := Task(c, [], 0)] == s3.tasks && [AddShare][1..] == [];
    assert s2.cells[0 := s3.cells[0]] == s3.cells;
    ss', es' := Extend(env, lag, ss', es', Run(1), s3);
  }

  lemma {:induction false} ThreeShares<C>(env: Env, lag: real, ss: seq<State<C>>, es: seq<Event<C>>, s: State<C>, c: C)
    returns (ss': seq<State<C>>, es': seq<Event<C>>)
    requires IsRun(env, lag, ss, es) && ss[|es|] == s && Calm(env, s) && s.cells[0].shares == 0
    ensures IsRun(env, lag, ss', es')
    ensures ss'[|es'|] == s.(cells := [s.cells[0].(shares := 3)], tasks := s.tasks[1 := Task(c, [], 0)])
  {
    var done := s.tasks[1 := Task(c, [], 0)];
    assert done[1 := Task(c, [], 0)] == done;
    ss', es' := OneShare(env, lag, ss, es, s, c);
    ss', es' := OneShare(env, lag, ss', es', s.(cells := [s.cells[0].(shares := 1)], tasks := done), c);
    ss', es' := OneShare(env, lag, ss', es', s.(cells := [s.cells[0].(shares := 2)], tasks := done), c);
  }

  /** A pass up to the move, thirty seconds and three shares into the window. */
  lemma {:induction false} PassMoves<C>(env: Env, lag: real, ss: seq<State<C>>, es: seq<Event<C>>, s: State<C>)
    returns (ss': seq<State<C>>, es': seq<Event<C>>)
    requires IsRun(env, lag, ss, es) && ss[|es|] == s && Calm(env, s)
    requires s.cells[0] == Stats(s.cells[0].minDiff, Some(s.clock - 30.0), 3)
    requires s.cells[0].minDiff == 4.0 || s.cells[0].minDiff == 8.0
    ensures IsRun(env, lag, ss', es')
    ensures ss'[|es'|] == s.(cells := [s.cells[0].(minDiff := 2.0 * s.cells[0].minDiff)], ticker := Restarting(s.clock),
                             moves := s.moves + [s.clock])
  {
    var seen, now := s.cells[0], s.clock;
    var start := now - 30.0;
    Quadruple(seen.minDiff);
    assert Window(seen, now) == 30.0;
    assert Decision(seen, now, env.expectedSpm, env.clamp, 2.0) == Some(2.0 * seen.minDiff);
    var s1 := s.(ticker := Looking(now));
    var s2 := s.(ticker := GotStart(now, start));
    var s3 := s.(ticker := GotShares(now, start, 3));
    var s4 := s.(ticker := Moving(now, seen, 2.0 * seen.minDiff));
    var s5 := s.(cells := [seen.(minDiff := 2.0 * seen.minDiff)], ticker := Restarting(now), moves := s.moves + [now]);
    ss', es' := Extend(env, lag, ss, es, Tick(2.0), s1);
    ss', es' := Extend(env, lag, ss', es', Tick(2.0), s2);
    ss', es' := Extend(env, lag, ss', es', Tick(2.0), s3);
    ss', es' := Extend(env, lag, ss', es', Tick(2.0), s4);
    assert s4.cells[0 := s5.cells[0]] == s5.cells;
    ss', es' := Extend(env, lag, ss', es', Tick(2.0), s5);
  }

  function With<C>(s: State<C>, c: C, code: seq<Instr>): State<C> {
    s.(tasks := s.tasks[0 := Task(c, code, 0)])
  }

  /** One more instruction of task 0. */
  lemma {:induction false} RunOne<C>(
    env: Env, lag: real, ss: seq<State<C>>, es: seq<Event<C>>, s: State<C>, c: C, code: seq<Instr>, s': State<C>, code': seq<Instr>)
    returns (ss': seq<State<C>>, es': seq<Event<C>>)
    requires IsRun(env, lag, ss, es) && ss[|es|] == With(s, c, code) && code != []
    requires Enabled(env, lag, With(s, c, code), Run(0))
    requires var t := Task(c, code, 0);
             && Effect(With(s, c, code), t) == With(s', c, code) && Rest(With(s, c, code), t) == code'
             && (code[0].Fetch? ==> s'.live == Some(0))
    ensures IsRun(env, lag, ss', es') && ss'[|es'|] == With(s', c, code')
  {
    assert With(s', c, code).tasks[0 := Task(c, code', 0)] == With(s', c, code').tasks;
    ss', es' := Extend(env, lag, ss, es, Run(0), With(s', c, code'));
  }

  function LoginCode(): seq<Instr> {
    [DeliverIfNone(4.0), Fetch, PutDiff(4.0), ReadClock]
  }

  /** A login up to where it has read the clock: the first one, which makes the entry, or a later one. */
  lemma {:induction false} LoginReadsClock<C>(env: Env, lag: real, ss: seq<State<C>>, es: seq<Event<C>>, s: State<C>, s': State<C>, c: C)
    returns (ss': seq<State<C>>, es': seq<Event<C>>)
    requires IsRun(env, lag, ss, es) && ss[|es|] == s && env == Env(4.0, 1.5, false) && s.ticker == Resting
    requires 0 in s.tasks ==> s.tasks[0].code == []
    requires || (s.live == None && s.cells == [] && s.sent == map[]
                 && s' == s.(cells := [Stats(4.0, None, 0)], live := Some(0), sent := map[c := 4.0]))
             || (s.live == Some(0) && |s.cells| == 1 && s.cells[0].minDiff == 4.0 && c in s.sent && s' == s)
    ensures IsRun(env, lag, ss', es') && ss'[|es'|] == With(s', c, [PutStart(s.clock), ZeroShares])
  {
    assert [DeliverIfNone(4.0)] + SetCode(4.0) == LoginCode();
    ss', es' := Extend(env, lag, ss, es, Begin(0, c, LoginCode()), With(s, c, LoginCode()));
    var sent := s.(sent := s'.sent);
    ss', es' := RunOne(env, lag, ss', es', s, c, LoginCode(), sent, [Fetch, PutDiff(4.0), ReadClock]);
    ss', es' := RunOne(env, lag, ss', es', sent, c, [Fetch, PutDiff(4.0), ReadClock], s', [PutDiff(4.0), ReadClock]);
    ss', es' := SetReadsClock(env, lag, ss', es', s', c);
  }

  lemma {:induction false} SetReadsClock<C>(env: Env, lag: real, ss: seq<State<C>>, es: seq<Event<C>>, s: State<C>, c: C)
    returns (ss': seq<State<C>>, es': seq<Event<C>>)
    requires IsRun(env, lag, ss, es) && ss[|es|] == With(s, c, [PutDiff(4.0), ReadClock])
    requires s.live == Some(0) && |s.cells| == 1 && s.cells[0].minDiff == 4.0
    ensures IsRun(env, lag, ss', es') && ss'[|es'|] == With(s, c, [PutStart(s.clock), ZeroShares])
  {
    assert s.cells[0 := s.cells[0].(minDiff := 4.0)] == s.cells;
    ss', es' := RunOne(env, lag, ss, es, s, c, [PutDiff(4.0), ReadClock], s, [ReadClock]);
    assert [PutStart(s.clock), ZeroShares] + [ReadClock][1..] == [PutStart(s.clock), ZeroShares];
    ss', es' := RunOne(env, lag, ss', es', s, c, [ReadClock], s, [PutStart(s.clock), ZeroShares]);
  }

  /** And from there to its end, with time to spare within the lag. */
  lemma {:induction false} LoginStores<C>(env: Env, lag: real, ss: seq<State<C>>, es: seq<Event<C>>, s: State<C>, c: C, time: real)
    returns (ss': seq<State<C>>, es': seq<Event<C>>)
    requires IsRun(env, lag, ss, es) && ss[|es|] == With(s, c, [PutStart(time), ZeroShares])
    requires s.live == Some(0) && |s.cells| == 1 && s.clock - time <= lag
    ensures IsRun(env, lag, ss', es')
    ensures ss'[|es'|] == With(s.(cells := [Stats(s.cells[0].minDiff, Some(time), 0)]), c, [])
  {
    var s1 := s.(cells := [s.cells[0].(start := Some(time))]);
    var s2 := s.(cells := [Stats(s.cells[0].minDiff, Some(time), 0)]);
    assert s.cells[0 := s1.cells[0]] == s1.cells && s1.cells[0 := s2.cells[0]] == s2.cells;
    ss', es' := RunOne(env, lag, ss, es, s, c, [PutStart(time), ZeroShares], s1, [ZeroShares]);
    ss', es' := RunOne(env, lag, ss', es', s1, c, [ZeroShares], s2, []);
  }

  /** The rest of a pass that has moved. */
  lemma {:induction false} PassEnds<C>(env: Env, lag: real, ss: seq<State<C>>, es: seq<Event<C>>, s: State<C>)
    returns (ss': seq<State<C>>, es': seq<Event<C>>)
    requires IsRun(env, lag, ss, es) && ss[|es|] == s && s.live == Some(0) && |s.cells| == 1 && s.ticker == Restarting(s.clock)
    ensures IsRun(env, lag, ss', es')
    ensures ss'[|es'|] == s.(cells := [Stats(s.cells[0].minDiff, Some(s.clock), 0)], ticker := Resting)
  {
    var s1 := s.(cells := [s.cells[0].(start := Some(s.clock))], ticker := Clearing);
    var s2 := s.(cells := [Stats(s.cells[0].minDiff, Some(s.clock), 0)], ticker := Resting);
    assert s.cells[0 := s1.cells[0]] == s1.cells && s1.cells[0 := s2.cells[0]] == s2.cells;
    ss', es' := Extend(env, lag, ss, es, Tick(2.0), s1);
    ss', es' := Extend(env, lag, ss', es', Tick(2.0), s2);
  }

  /** A login, three shares, and, just before half a minute is up, a second login that has read the clock. */
  lemma {:induction false} UpToSecondLogin<C>(lag: real, early: real, c: C)
    returns (ss: seq<State<C>>, es: seq<Event<C>>, s: State<C>)
    requires 0.0 < early <= lag && early <= 30.0
    ensures IsRun(Env(4.0, 1.5, false), lag, ss, es)
    ensures ss[|es|] == With(s, c, [PutStart(30.0 - early), ZeroShares])
    ensures s.cells == [Stats(4.0, Some(0.0), 3)] && s.live == Some(0) && s.ticker == Resting && s.moves == []
    ensures s.clock == 30.0 - early && c in s.sent && 1 in s.tasks && s.tasks[1].code == []
  {
    var env := Env(4.0, 1.5, false);
    var s0: State<C> := Started(0.0);
    ss, es := [s0], [];
    var s1 := s0.(cells := [Stats(4.0, None, 0)], live := Some(0), sent := map[c := 4.0]);
    ss, es := LoginReadsClock(env, lag, ss, es, s0, s1, c);
    ss, es := LoginStores(env, lag, ss, es, s1, c, 0.0);
    var s2 := With(s1.(cells := [Stats(4.0, Some(0.0), 0)]), c, []);
    ss, es := ThreeShares(env, lag, ss, es, s2, c);
    var s3 := s2.(cells := [Stats(4.0, Some(0.0), 3)], tasks := s2.tasks[1 := Task(c, [], 0)]);
    s := s3.(clock := 30.0 - early);
    ss, es := Extend(env, lag, ss, es, Wait(30.0 - early), s);
    ss, es := LoginReadsClock(env, lag, ss, es, s, s, c);
  }

  /** However small the lag, thirty seconds are not kept: a login that read the clock just before a move, and stores it
      just after, lets the next move come early by as much. So the bound of `MovesTakeTime` holds without its lag
      exactly if there is none. */
  lemma {:induction false} LagShortensSpacing<C>(lag: real, c: C) returns (ss: seq<State<C>>, es: seq<Event<C>>)
    requires lag > 0.0
    ensures IsRun(Env(InitialDiff(4, false), 1.5, false), lag, ss, es)
    ensures |ss[|es|].moves| == 2 && ss[|es|].moves[1] - ss[|es|].moves[0] < MIN_ELAPSED
  {
    var env := Env(4.0, 1.5, false);
    var early := if lag < 1.0 then lag else 1.0;
    var s;
    ss, es, s := UpToSecondLogin(lag, early, c);
    var waiting := With(s, c, [PutStart(30.0 - early), ZeroShares]);
    var due := waiting.(clock := 30.0);
    ss, es := Extend(env, lag, ss, es, Wait(30.0), due);
    ss, es := PassMoves(env, lag, ss, es, due);
    var moved := due.(cells := [Stats(8.0, Some(0.0), 3)], ticker := Restarting(30.0), moves := [30.0]);
    assert due.moves + [30.0] == [30.0];
    ss, es := PassEnds(env, lag, ss, es, moved);
    var calm := s.(clock := 30.0, cells := [Stats(8.0, Some(30.0), 0)], moves := [30.0]);
    ss, es := LoginStores(env, lag, ss, es, calm, c, 30.0 - early);
    var again := With(calm.(cells := [Stats(8.0, Some(30.0 - early), 0)]), c, []);
    ss, es := ThreeShares(env, lag, ss, es, again, c);
    var full := again.(cells := [Stats(8.0, Some(30.0 - early), 3)], tasks := again.tasks[1 := Task(c, [], 0)]);
    ss, es := Extend(env, lag, ss, es, Wait(60.0 - early), full.(clock := 60.0 - early));
    ss, es := PassMoves(env, lag, ss, es, full.(clock := 60.0 - early));
  }
}
