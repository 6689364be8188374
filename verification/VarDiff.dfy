/** The share-difficulty controller of `bridge/src/share_handler.rs`, over the reals. */
module VarDiff {
  import opened KeySpace

  const MIN_ELAPSED: real := 30.0
  const MAX_ELAPSED_NO_SHARES: real := 90.0
  const MIN_SHARES: real := 3.0
  const LOWER_RATIO: real := 0.75
  const UPPER_RATIO: real := 1.25
  const MAX_STEP_UP: real := 2.0
  const MAX_STEP_DOWN: real := 0.5
  const EPSILON: real := 1.0 / 4503599627370496.0

  function Pow2(k: nat): (p: real)
    ensures p >= 1.0
  {
    if k == 0 then 1.0 else 2.0 * Pow2(k - 1)
  }

  /** `log2` rounded down and up, for arguments from 1. */
  function FloorLog2(x: real): nat
    requires x >= 1.0
    decreases x
  {
    if x < 2.0 then 0 else 1 + FloorLog2(x / 2.0)
  }

  function CeilLog2(x: real): nat
    requires x >= 1.0
  {
    if x == Pow2(FloorLog2(x)) then FloorLog2(x) else FloorLog2(x) + 1
  }

  lemma {:induction false} FloorLog2Is(x: real, k: nat)
    requires Pow2(k) <= x < Pow2(k + 1)
    ensures FloorLog2(x) == k
    decreases k
  {
    if k > 0 {
      FloorLog2Is(x / 2.0, k - 1);
    }
  }

  lemma {:induction false} FloorLog2Bounds(x: real)
    requires x >= 1.0
    ensures Pow2(FloorLog2(x)) <= x < Pow2(FloorLog2(x) + 1)
    decreases x
  {
    if x >= 2.0 {
      FloorLog2Bounds(x / 2.0);
    }
  }

  function Abs(x: real): real {
    if x < 0.0 then -x else x
  }

  function Max(x: real, y: real): real {
    if x < y then y else x
  }

  /** A power of two on the far side of the step: up when rising, down when falling, never below 1. Below 1
      both roundings give at most 1, which is then raised to 1. */
  function Pow2ClampTowards(current: real, next: real): real {
    if next < 1.0 then 1.0
    else Pow2(if next >= current then CeilLog2(next) else FloorLog2(next))
  }

  /** Observed share rate over expected share rate. */
  function Ratio(shares: nat, elapsed: real, expectedSpm: real): real
    requires elapsed > 0.0
  {
    shares as real / elapsed * 60.0 / Max(expectedSpm, 1.0)
  }

  predicate Silent(shares: nat, elapsed: real) {
    shares == 0 && elapsed >= MAX_ELAPSED_NO_SHARES
  }

  /** The new value for a target: at least 1, and a power of two if asked for. */
  function Settle(current: real, target: real, clampPow2: bool): real {
    var raised := Max(target, 1.0);
    if clampPow2 then Pow2ClampTowards(current, raised) else raised
  }

  function ClampFactor(root: real): real {
    if root < MAX_STEP_DOWN then MAX_STEP_DOWN else if root > MAX_STEP_UP then MAX_STEP_UP else root
  }

  function IfChanged(current: real, next: real): Option<real> {
    if Abs(next - current) > EPSILON then Some(next) else None
  }

  /** Relative changes of less than a tenth are not made. */
  function Damped(current: real, next: real): Option<real> {
    if Abs(next - current) < 0.10 * Max(current, 1.0) then None else IfChanged(current, next)
  }

  function Move(current: real, target: real, clampPow2: bool): Option<real> {
    Damped(current, Settle(current, target, clampPow2))
  }

  function Scaled(current: real, step: real): real {
    current * step
  }

  function RateStep(current: real, ratio: real, clampPow2: bool, root: real): Option<real> {
    if ratio <= 0.0 || LOWER_RATIO < ratio < UPPER_RATIO then None 
    else Move(current, Scaled(current, ClampFactor(root)), clampPow2)
  }

  /** `vardiff_compute_next_diff`; `root` stands for the square root of the ratio. */
  function NextDiff(current: real, shares: nat, elapsed: real, expectedSpm: real, clampPow2: bool, root: real): Option<real> {
    if current <= 0.0 || elapsed <= 0.0 then None
    else if Silent(shares, elapsed) then IfChanged(current, Settle(current, current * MAX_STEP_DOWN, clampPow2))
    else if elapsed < MIN_ELAPSED || shares as real < MIN_SHARES then None
    else RateStep(current, Ratio(shares, elapsed, expectedSpm), clampPow2, root)
  }

  ghost predicate IsRoot(root: real, shares: nat, elapsed: real, expectedSpm: real) {
    elapsed > 0.0 ==> root >= 0.0 && root * root == Ratio(shares, elapsed, expectedSpm)
  }

  /** What the window calls for: nothing, more difficulty, or less. */
  datatype Verdict = Keep | Raise | Lower

  function Calls(shares: nat, elapsed: real, expectedSpm: real): Verdict {
    if elapsed <= 0.0 then Keep
    else if Silent(shares, elapsed) then Lower
    else if elapsed < MIN_ELAPSED || shares as real < MIN_SHARES then Keep
    else if Ratio(shares, elapsed, expectedSpm) >= UPPER_RATIO then Raise
    else if Ratio(shares, elapsed, expectedSpm) <= LOWER_RATIO then Lower
    else Keep
  }

  lemma RatioPositive(shares: nat, elapsed: real, expectedSpm: real)
    requires elapsed > 0.0 && shares > 0
    ensures Ratio(shares, elapsed, expectedSpm) > 0.0
  {
    var rate := shares as real / elapsed;
    assert rate > 0.0;
  }

  lemma NonPositive(a: real, b: real)
    requires a <= 0.0 && b >= 0.0
    ensures a * b <= 0.0
  {
  }

  lemma Positive(a: real, b: real)
    requires a > 0.0 && b > 0.0
    ensures a * b > 0.0
  {
  }

  lemma RootSide(root: real, ratio: real)
    requires root >= 0.0 && root * root == ratio
    ensures ratio >= UPPER_RATIO ==> root > 1.0
    ensures ratio <= LOWER_RATIO ==> root < 1.0
  {
    assert (root - 1.0) * (root + 1.0) == ratio - 1.0;
    if root <= 1.0 {
      NonPositive(root - 1.0, root + 1.0);
    } else {
      NonPositive(1.0 - root, root + 1.0);
    }
  }

  lemma ClampUp(k: nat, next: real)
    requires Pow2(k) < next <= Pow2(k + 1)
    ensures Pow2ClampTowards(Pow2(k), next) == Pow2(k + 1)
  {
    if next == Pow2(k + 1) {
      FloorLog2Is(next, k + 1);
    } else {
      FloorLog2Is(next, k);
    }
  }

  lemma ClampDown(k: nat, next: real)
    requires k >= 1 && Pow2(k - 1) <= next < Pow2(k)
    ensures Pow2ClampTowards(Pow2(k), next) == Pow2(k - 1)
  {
    FloorLog2Is(next, k - 1);
  }

  /** From 2^k a higher target settles on the double, a lower one on the half, or on 1 from 1. */
  lemma SettleClamped(k: nat, target: real)
    requires Pow2(k) / 2.0 <= target <= 2.0 * Pow2(k)
    ensures target > Pow2(k) ==> Settle(Pow2(k), target, true) == Pow2(k + 1)
    ensures target < Pow2(k) ==> Settle(Pow2(k), target, true) == if k >= 1 then Pow2(k - 1) else 1.0
  {
    if target > Pow2(k) {
      ClampUp(k, target);
    } else if target < Pow2(k) && k >= 1 {
      ClampDown(k, target);
    } else if target < Pow2(k) {
      FloorLog2Is(1.0, 0);
    }
  }

  lemma DampedMoves(current: real)
    requires current >= 1.0
    ensures Damped(current, 2.0 * current) == Some(2.0 * current)
    ensures Damped(current, current / 2.0) == Some(current / 2.0)
    ensures Damped(current, current) == None
  {
  }

  /** Where a step factor takes a value of at least 1. */
  lemma StepBounds(current: real, step: real)
    requires current >= 1.0 && 0.5 <= step <= 2.0
    ensures current / 2.0 <= Scaled(current, step) <= 2.0 * current
    ensures step > 1.0 ==> Scaled(current, step) > current
    ensures step < 1.0 ==> Scaled(current, step) < current
  {
    NonPositive(step - 2.0, current);
    NonPositive(0.5 - step, current);
    if step > 1.0 {
      Positive(step - 1.0, current);
    } else if step < 1.0 {
      Positive(1.0 - step, current);
    }
  }

  lemma MoveClamped(k: nat, target: real)
    requires Pow2(k) / 2.0 <= target <= 2.0 * Pow2(k)
    ensures target > Pow2(k) ==> Move(Pow2(k), target, true) == Some(Pow2(k + 1))
    ensures target < Pow2(k) ==> Move(Pow2(k), target, true) == if k >= 1 then Some(Pow2(k - 1)) else None
  {
    DampedMoves(Pow2(k));
    SettleClamped(k, target);
  }

  /** With power-of-two clamping a step is fully determined: exactly a doubling when the window calls for more,
      exactly a halving when it calls for less and there is room, and nothing otherwise. */
  lemma ClampedStep(k: nat, shares: nat, elapsed: real, expectedSpm: real, root: real)
    requires IsRoot(root, shares, elapsed, expectedSpm)
    ensures NextDiff(Pow2(k), shares, elapsed, expectedSpm, true, root) ==
            match Calls(shares, elapsed, expectedSpm)
            case Keep => None
            case Raise => Some(Pow2(k + 1))
            case Lower => if k >= 1 then Some(Pow2(k - 1)) else None
  {
    if elapsed > 0.0 && Silent(shares, elapsed) {
      SettleClamped(k, Pow2(k) * MAX_STEP_DOWN);
    } else if elapsed > 0.0 && elapsed >= MIN_ELAPSED && shares as real >= MIN_SHARES {
      RatioPositive(shares, elapsed, expectedSpm);
      RootSide(root, Ratio(shares, elapsed, expectedSpm));
      StepBounds(Pow2(k), ClampFactor(root));
      MoveClamped(k, Scaled(Pow2(k), ClampFactor(root)));
    }
  }

  predicate Sound(current: real, verdict: Verdict, next: Option<real>) {
    match next
    case None => true
    case Some(d) =>
      && Max(1.0, current / 2.0) <= d <= 2.0 * current
      && match verdict {
           case Keep => false
           case Raise => d > current
           case Lower => d < current
         }
  }

  lemma RateStepPlain(current: real, ratio: real, root: real)
    requires current >= 1.0 && root >= 0.0 && root * root == ratio
    ensures Sound(current,
                  if ratio >= UPPER_RATIO then Raise else if ratio <= LOWER_RATIO then Lower else Keep,
                  RateStep(current, ratio, false, root))
  {
    RootSide(root, ratio);
    StepBounds(current, ClampFactor(root));
  }

  /** Without clamping a step from a value of at least 1 stays within half and double and at or above 1, and
      goes the way the window calls for. */
  lemma UnclampedStep(current: real, shares: nat, elapsed: real, expectedSpm: real, root: real)
    requires current >= 1.0 && IsRoot(root, shares, elapsed, expectedSpm)
    ensures Sound(current, Calls(shares, elapsed, expectedSpm),
                  NextDiff(current, shares, elapsed, expectedSpm, false, root))
  {
    if elapsed > 0.0 && !Silent(shares, elapsed) {
      RateStepPlain(current, Ratio(shares, elapsed, expectedSpm), root);
    }
  }

  // ---- with the numbers written out ----

  /** Shares expected in the window, sixty times over: the elapsed seconds times the expected shares a minute, of which at
      least one is expected. */
  function Expected(elapsed: real, expectedSpm: real): real {
    elapsed * (if expectedSpm < 1.0 then 1.0 else expectedSpm)
  }

  /** `root` is the square root of observed over expected. */
  ghost predicate IsRateRoot(root: real, shares: nat, elapsed: real, expectedSpm: real) {
    root >= 0.0 && Times(root * root, Expected(elapsed, expectedSpm)) == 60.0 * shares as real
  }

  function Times(x: real, y: real): real {
    x * y
  }

  lemma Regroup(a: real, b: real, c: real)
    ensures a * (b * c) == a * c * b
  {
  }

  lemma {:induction false} RatioMeans(shares: nat, elapsed: real, expectedSpm: real)
    requires elapsed > 0.0
    ensures Times(Ratio(shares, elapsed, expectedSpm), Expected(elapsed, expectedSpm)) == 60.0 * shares as real
  {
    var m, rate, ratio := Max(expectedSpm, 1.0), shares as real / elapsed, Ratio(shares, elapsed, expectedSpm);
    assert rate * elapsed == shares as real;
    assert ratio * m == rate * 60.0;
    Regroup(ratio, elapsed, m);
    Regroup(60.0, rate, elapsed);
  }

  lemma {:induction false} Compare(r: real, c: real, e: real)
    requires e > 0.0
    ensures r >= c <==> Times(r, e) >= Times(c, e)
    ensures r <= c <==> Times(r, e) <= Times(c, e)
  {
    if r > c {
      Positive(r - c, e);
    } else if r < c {
      Positive(c - r, e);
    }
  }

  lemma {:induction false} ExpectedPositive(elapsed: real, expectedSpm: real)
    requires elapsed > 0.0
    ensures Expected(elapsed, expectedSpm) > 0.0
  {
    Positive(elapsed, if expectedSpm < 1.0 then 1.0 else expectedSpm);
  }

  lemma {:induction false} RatioAgainst(shares: nat, elapsed: real, expectedSpm: real, c: real)
    requires elapsed > 0.0
    ensures Ratio(shares, elapsed, expectedSpm) >= c <==> 60.0 * shares as real >= Times(c, Expected(elapsed, expectedSpm))
    ensures Ratio(shares, elapsed, expectedSpm) <= c <==> 60.0 * shares as real <= Times(c, Expected(elapsed, expectedSpm))
  {
    RatioMeans(shares, elapsed, expectedSpm);
    ExpectedPositive(elapsed, expectedSpm);
    Compare(Ratio(shares, elapsed, expectedSpm), c, Expected(elapsed, expectedSpm));
  }

  lemma {:induction false} RateRootIs(root: real, shares: nat, elapsed: real, expectedSpm: real)
    requires elapsed > 0.0 && IsRateRoot(root, shares, elapsed, expectedSpm)
    ensures IsRoot(root, shares, elapsed, expectedSpm)
  {
    RatioMeans(shares, elapsed, expectedSpm);
    ExpectedPositive(elapsed, expectedSpm);
    Compare(root * root, Ratio(shares, elapsed, expectedSpm), Expected(elapsed, expectedSpm));
  }

  /** The controller with clamping, in numbers. From 30 seconds and 3 shares on it doubles 2^k if and only if at least 1.25
      times the expected shares came in, and halves it, down to 1, if and only if at most 0.75 times; with no share it
      halves if and only if 90 seconds have passed; and it does nothing otherwise. */
  lemma {:induction false} ClampedByNumbers(k: nat, shares: nat, elapsed: real, expectedSpm: real, root: real)
    requires elapsed > 0.0 ==> IsRateRoot(root, shares, elapsed, expectedSpm)
    ensures var next, observed := NextDiff(Pow2(k), shares, elapsed, expectedSpm, true, root), 60.0 * shares as real;
            var lowered := if k >= 1 then Some(Pow2(k - 1)) else None;
            next ==
            if shares == 0 then (if elapsed >= 90.0 then lowered else None)
            else if shares < 3 || elapsed < 30.0 then None
            else if observed >= 1.25 * Expected(elapsed, expectedSpm) then Some(Pow2(k + 1))
            else if observed <= 0.75 * Expected(elapsed, expectedSpm) then lowered
            else None
  {
    if elapsed > 0.0 {
      RateRootIs(root, shares, elapsed, expectedSpm);
      RatioAgainst(shares, elapsed, expectedSpm, 1.25);
      RatioAgainst(shares, elapsed, expectedSpm, 0.75);
    }
    ClampedStep(k, shares, elapsed, expectedSpm, root);
  }

  lemma {:induction false} RootApart(root: real)
    requires root >= 0.0
    ensures root * root >= 1.25 ==> root >= 1.1
    ensures root * root <= 0.75 ==> root <= 0.9
  {
    if root < 1.1 {
      NonPositive(root - 1.1, root + 1.1);
    }
    if root > 0.9 {
      Positive(root - 0.9, root + 0.9);
    }
  }

  /** Where a rate step takes an unclamped value. */
  lemma {:induction false} PlainMove(current: real, root: real)
    requires current >= 1.0 && root >= 0.0
    ensures root >= 1.1 ==>
              Move(current, Scaled(current, ClampFactor(root)), false) == Some(Scaled(current, if root > 2.0 then 2.0 else root))
    ensures root <= 0.9 ==>
              var target := Scaled(current, if root < 0.5 then 0.5 else root);
              Move(current, Scaled(current, ClampFactor(root)), false) ==
              if 10.0 * (current - 1.0) >= current then Some(if target < 1.0 then 1.0 else target) else None
  {
    var step := ClampFactor(root);
    StepBounds(current, step);
    if root >= 1.1 {
      NonPositive(1.1 - step, current);
    } else if root <= 0.9 {
      NonPositive(step - 0.9, current);
    }
  }

  /** The controller without clamping, in numbers: when it moves, and to which value. A lowered value stops at 1 and is
      not taken when that is less than a tenth away. */
  lemma {:induction false} UnclampedByNumbers(current: real, shares: nat, elapsed: real, expectedSpm: real, root: real)
    requires current >= 1.0 && (elapsed > 0.0 ==> IsRateRoot(root, shares, elapsed, expectedSpm))
    ensures var next, observed := NextDiff(current, shares, elapsed, expectedSpm, false, root), 60.0 * shares as real;
            var halved := if current < 2.0 then 1.0 else current / 2.0;
            var lower := Scaled(current, if root < 0.5 then 0.5 else root);
            next ==
            if shares == 0 then (if elapsed >= 90.0 && current - halved > EPSILON then Some(halved) else None)
            else if shares < 3 || elapsed < 30.0 then None
            else if observed >= 1.25 * Expected(elapsed, expectedSpm) then
              Some(Scaled(current, if root > 2.0 then 2.0 else root))
            else if observed <= 0.75 * Expected(elapsed, expectedSpm) then
              (if 10.0 * (current - 1.0) >= current then Some(if lower < 1.0 then 1.0 else lower) else None)
            else None
  {
    if elapsed > 0.0 && shares > 0 {
      RateRootIs(root, shares, elapsed, expectedSpm);
      RatioPositive(shares, elapsed, expectedSpm);
      RatioAgainst(shares, elapsed, expectedSpm, 1.25);
      RatioAgainst(shares, elapsed, expectedSpm, 0.75);
      RootApart(root);
      PlainMove(current, root);
    }
  }

  /** The difficulty after silent windows of the given lengths. */
  function AfterSilence(current: real, windows: seq<real>, expectedSpm: real): real {
    if windows == [] then current
    else
      var n := |windows| - 1;
      match NextDiff(AfterSilence(current, windows[..n], expectedSpm), 0, windows[n], expectedSpm, true, 0.0)
      case None => AfterSilence(current, windows[..n], expectedSpm)
      case Some(next) => next
  }

  lemma NothingObserved(elapsed: real, expectedSpm: real)
    requires elapsed > 0.0
    ensures Ratio(0, elapsed, expectedSpm) == 0.0
  {
    assert 0 as real / elapsed == 0.0;
  }

  /** Silence walks 2^k down to 1 in exactly k windows and then stays. */
  lemma {:induction false} SilenceReachesOne(k: nat, windows: seq<real>, expectedSpm: real)
    requires forall i :: 0 <= i < |windows| ==> windows[i] >= 90.0
    ensures AfterSilence(Pow2(k), windows, expectedSpm) == Pow2(if |windows| <= k then k - |windows| else 0)
  {
    if windows != [] {
      var n := |windows| - 1;
      SilenceReachesOne(k, windows[..n], expectedSpm);
      NothingObserved(windows[n], expectedSpm);
      ClampedStep(if n <= k then k - n else 0, 0, windows[n], expectedSpm, 0.0);
    }
  }
}
