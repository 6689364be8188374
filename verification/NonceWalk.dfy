/** The nonces the threads of the built-in miner walk (`bridge/src/rkstratum_cpu_miner.rs`): thread `i` of `count`
    starts at `i * SPREAD` and goes up by `count`, in 64-bit arithmetic. */
module NonceWalk {
  const WORD: nat := 0x1_0000_0000_0000_0000
  const SPREAD: nat := 1_000_000_007

  function Times(a: int, b: int): int {
    a * b
  }

  ghost predicate Divides(d: int, n: int) {
    exists q :: Times(q, d) == n
  }

  ghost predicate Coprime(a: int, b: int) {
    forall g: nat :: g > 1 ==> !(Divides(g, a) && Divides(g, b))
  }

  /** Where a thread stands after a number of failed checks, before wrapping. */
  function Position(count: nat, i: nat, steps: nat): nat {
    i * SPREAD + steps * count
  }

  function NonceAt(count: nat, i: nat, steps: nat): nat {
    Position(count, i, steps) % WORD
  }

  // Greatest common divisors

  /** The Euclidean algorithm with its coefficients. */
  lemma {:induction false} Bezout(a: nat, b: nat) returns (g: nat, u: int, v: int)
    requires a > 0 || b > 0
    ensures g > 0 && u * a + v * b == g && Divides(g, a) && Divides(g, b)
    decreases b
  {
    if b == 0 {
      g, u, v := a, 1, 0;
      assert Times(1, a) == a && Times(0, a) == 0;
    } else {
      var u', v';
      g, u', v' := Bezout(b, a % b);
      var k := a / b;
      u, v := v', u' - k * v';
      Regroup(u', v', a, b, k, a % b);
      var x :| Times(x, g) == b;
      var y :| Times(y, g) == a % b;
      Distribute(k * x, y, g);
      assert k * x * g == k * b by { Associate(k, x, g); }
      assert Times(k * x + y, g) == a;
    }
  }

  lemma Distribute(x: int, y: int, d: int)
    ensures (x + y) * d == x * d + y * d && (x - y) * d == x * d - y * d
  {
  }

  lemma Associate(x: int, y: int, z: int)
    ensures x * y * z == x * (y * z) && x * y * z == x * z * y
  {
  }

  lemma Exchange(a: int, b: int, g: int)
    ensures b * (a * g) == a * (b * g)
  {
    Associate(a, b, g);
    Associate(b, a, g);
  }

  lemma Regroup(u: int, v: int, a: int, b: int, k: int, r: int)
    requires a == k * b + r
    ensures v * a + (u - k * v) * b == u * b + v * r
  {
    assert v * a == v * (k * b) + v * r;
    Distribute(u, k * v, b);
    Associate(v, k, b);
    assert v * k == k * v;
  }

  lemma DivisorAtMost(d: nat, n: int)
    requires Divides(d, n) && n != 0
    ensures d <= n || d <= -n
  {
    var q :| Times(q, d) == n;
    if q > 0 {
      assert (q - 1) * d >= 0;
    } else if q < 0 {
      assert (-q - 1) * d >= 0;
    }
  }

  lemma ZeroProduct(x: int, d: nat)
    requires x * d == 0 && d > 0
    ensures x == 0
  {
  }

  lemma ProperQuotient(a: int, g: int, n: nat)
    requires a * g == n && g > 1 && n > 0
    ensures 0 < a < n
  {
    if a > 0 {
      assert a * (g - 1) > 0;
    }
  }

  /** Euclid's lemma. */
  lemma CoprimeCancels(t: nat, p: nat, d: int, k: int)
    requires t > 0 && Coprime(t, p) && d * p == k * t
    ensures Divides(t, d)
  {
    var g, u, v := Bezout(t, p);
    assert g == 1;
    calc {
      d;
      d * (u * t + v * p);
      d * (u * t) + d * (v * p);
      { Associate(d, u, t); Associate(v, d, p); Associate(d, v, p); assert d * v == v * d; }
      d * u * t + v * (d * p);
      { Associate(v, k, t); }
      d * u * t + v * k * t;
      { Distribute(d * u, v * k, t); }
      (d * u + v * k) * t;
    }
    assert Times(d * u + v * k, t) == d;
  }

  lemma SmallMultiple(t: nat, i: nat, j: nat)
    requires i < t && j < t && Divides(t, i - j)
    ensures i == j
  {
    if i != j {
      DivisorAtMost(t, i - j);
    }
  }

  // Before any counter wraps

  /** For a thread count coprime to the spread, two threads are never at the same position, and neither is one
      thread at two times. */
  lemma PositionsDiffer(count: nat, i: nat, m: nat, j: nat, n: nat)
    requires i < count && j < count && Coprime(count, SPREAD)
    requires Position(count, i, m) == Position(count, j, n)
    ensures i == j && m == n
  {
    Distribute(i, j, SPREAD);
    Distribute(n, m, count);
    CoprimeCancels(count, SPREAD, i - j, n - m);
    SmallMultiple(count, i, j);
    ZeroProduct(n - m, count);
  }

  /** For any other thread count two threads meet, at the very start of one of them. */
  lemma PositionsMeet(count: nat) returns (j: nat, n: nat)
    requires count > 0 && !Coprime(count, SPREAD)
    ensures 0 < j < count && Position(count, 0, n) == Position(count, j, 0) <= (count - 1) * SPREAD
  {
    var g: nat :| g > 1 && Divides(g, count) && Divides(g, SPREAD);
    var a :| Times(a, g) == count;
    var b :| Times(b, g) == SPREAD;
    ProperQuotient(a, g, count);
    ProperQuotient(b, g, SPREAD);
    j, n := a, b;
    Exchange(a, b, g);
  }

  /** No two threads ever stand at the same place before either of them wraps. */
  ghost predicate NeverMeet(count: nat) {
    forall i: nat, j: nat, m: nat, n: nat ::
      i < j < count && Position(count, i, m) < WORD && Position(count, j, n) < WORD ==>
        Position(count, i, m) != Position(count, j, n)
  }

  /** As long as no thread starts beyond a wrap already. */
  lemma NeverMeetIffCoprime(count: nat)
    requires count > 0 && (count - 1) * SPREAD < WORD
    ensures NeverMeet(count) <==> Coprime(count, 1_000_000_007)
  {
    if Coprime(count, SPREAD) {
      forall i: nat, j: nat, m: nat, n: nat | i < j < count
        ensures Position(count, i, m) != Position(count, j, n)
      {
        if Position(count, i, m) == Position(count, j, n) {
          PositionsDiffer(count, i, m, j, n);
        }
      }
    } else {
      var j, n := PositionsMeet(count);
    }
  }

  // Through any number of wraps

  lemma CongruentSplit(x: nat, y: nat) returns (q: int)
    requires x % WORD == y % WORD
    ensures x - y == q * WORD
  {
    q := x / WORD - y / WORD;
  }

  lemma WordCoprime(count: nat)
    requires Divides(count, WORD)
    ensures Coprime(count, SPREAD)
  {
    var c :| Times(c, count) == WORD;
    forall g: nat | g > 1 && Divides(g, count) && Divides(g, SPREAD)
      ensures false
    {
      var a :| Times(a, g) == count;
      var b :| Times(b, g) == SPREAD;
      Associate(c, a, g);
      UnitCombination(c * a, b, g);
    }
  }

  /** The spread has an inverse modulo the word, so no number above 1 divides both. */
  lemma UnitCombination(x: int, y: int, g: nat)
    requires x * g == WORD && y * g == SPREAD
    ensures g == 1
  {
    var u, v := -731796787, 13499267949257065399;
    assert u * WORD + v * SPREAD == 1;
    assert (u * x + v * y) * g == 1;
    assert Times(u * x + v * y, g) == 1;
    DivisorAtMost(g, 1);
  }

  /** A thread count that divides the word keeps the threads apart for ever. */
  lemma NoncesDiffer(count: nat, i: nat, m: nat, j: nat, n: nat)
    requires i < count && j < count && Divides(count, WORD)
    requires NonceAt(count, i, m) == NonceAt(count, j, n)
    ensures i == j
  {
    var q := CongruentSplit(Position(count, i, m), Position(count, j, n));
    var c :| Times(c, count) == WORD;
    Associate(q, c, count);
    Distribute(i, j, SPREAD);
    Distribute(n, m, count);
    Distribute(n - m, q * c, count);
    WordCoprime(count);
    CoprimeCancels(count, SPREAD, i - j, n - m + q * c);
    SmallMultiple(count, i, j);
  }

  lemma ModOfSum(x: nat, y: nat, k: int)
    requires x == y + k * WORD
    ensures x % WORD == y % WORD
  {
    assert x == (y / WORD + k) * WORD + y % WORD;
  }

  /** Any other thread count lets two threads meet in the end. */
  lemma NoncesMeet(count: nat) returns (j: nat, n: nat)
    requires count > 0 && !Divides(count, WORD)
    ensures 0 < j < count && NonceAt(count, 0, n) == NonceAt(count, j, 0)
  {
    var g, u, v := Bezout(count, WORD);
    DivisorAtMost(g, count);
    j := g;
    var k := (u * SPREAD) / WORD;
    n := (u * SPREAD) % WORD;
    calc {
      n * count;
      (u * SPREAD - k * WORD) * count;
      { Distribute(u * SPREAD, k * WORD, count); Associate(u, SPREAD, count); Associate(k, WORD, count); }
      u * count * SPREAD - k * count * WORD;
      { assert u * count == g - v * WORD; }
      (g - v * WORD) * SPREAD - k * count * WORD;
      { Distribute(g, v * WORD, SPREAD); Associate(v, WORD, SPREAD); Distribute(v * SPREAD, k * count, WORD); }
      g * SPREAD + (-(v * SPREAD) - k * count) * WORD;
    }
    ModOfSum(n * count, g * SPREAD, -(v * SPREAD) - k * count);
  }

  ghost predicate NeverShare(count: nat) {
    forall i: nat, j: nat, m: nat, n: nat ::
      i < j < count ==> NonceAt(count, i, m) != NonceAt(count, j, n)
  }

  lemma NeverShareIffDividesWord(count: nat)
    requires count > 0
    ensures NeverShare(count) <==> Divides(count, 0x1_0000_0000_0000_0000)
  {
    if Divides(count, WORD) {
      forall i: nat, j: nat, m: nat, n: nat | i < j < count
        ensures NonceAt(count, i, m) != NonceAt(count, j, n)
      {
        if NonceAt(count, i, m) == NonceAt(count, j, n) {
          NoncesDiffer(count, i, m, j, n);
        }
      }
    } else {
      var j, n := NoncesMeet(count);
    }
  }
}
