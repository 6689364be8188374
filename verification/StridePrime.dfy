/** The stride between the miner's starting nonces is prime, so that every smaller thread count is coprime to it. Shown
    by Pocklington's criterion: a divisor in which a power has a large order is itself large. */
module StridePrime {
  import opened NonceWalk
  import K = KeySpace

  ghost predicate Prime(n: nat) {
    n > 1 && forall r: nat :: r > 1 && Divides(r, n) ==> r == n
  }

  function Pow(a: nat, e: nat): nat {
    if e == 0 then 1 else a * Pow(a, e - 1)
  }

  /** Equal modulo `r`. */
  ghost predicate Same(x: int, y: int, r: int) {
    Divides(r, x - y)
  }

  lemma {:induction false} SameMul(x: int, y: int, z: int, w: int, r: int)
    requires Same(x, y, r) && Same(z, w, r)
    ensures Same(x * z, y * w, r)
  {
    var p :| Times(p, r) == x - y;
    var q :| Times(q, r) == z - w;
    Distribute(p * z, y * q, r);
    Associate(p, r, z);
    Associate(y, q, r);
    Associate(p, z, r);
    assert (x - y) * z == x * z - y * z && y * (z - w) == y * z - y * w;
    assert Times(p * z + y * q, r) == x * z - y * w;
  }

  lemma {:induction false} SameTrans(x: int, y: int, z: int, r: int)
    requires Same(x, y, r) && Same(y, z, r)
    ensures Same(x, z, r)
  {
    var p :| Times(p, r) == x - y;
    var q :| Times(q, r) == y - z;
    Distribute(p, q, r);
    assert Times(p + q, r) == x - z;
  }

  lemma {:induction false} SameSelf(x: int, r: int)
    ensures Same(x, x, r)
  {
    assert Times(0, r) == x - x;
  }

  lemma {:induction false} SameBack(x: int, y: int, r: int)
    requires Same(x, y, r)
    ensures Same(y, x, r)
  {
    var p :| Times(p, r) == x - y;
    assert Times(-p, r) == y - x;
  }

  lemma {:induction false} PowAdd(a: nat, d: nat, e: nat)
    ensures Pow(a, d + e) == Pow(a, d) * Pow(a, e)
  {
    if d > 0 {
      PowAdd(a, d - 1, e);
      Associate(a, Pow(a, d - 1), Pow(a, e));
    }
  }

  lemma {:induction false} ModSame(x: nat, m: nat)
    requires m > 0
    ensures Same(x % m, x, m)
  {
    assert Times(-(x / m), m) == x % m - x;
  }

  // Orders

  ghost predicate IsOne(a: nat, e: nat, r: nat) {
    Same(Pow(a, e), 1, r)
  }

  /** The least positive exponent that gives one. */
  ghost predicate Order(a: nat, t: nat, r: nat) {
    t > 0 && IsOne(a, t, r) && forall s :: 0 < s < t ==> !IsOne(a, s, r)
  }

  lemma {:induction false} OrderExists(a: nat, n: nat, r: nat) returns (t: nat)
    requires n > 0 && IsOne(a, n, r)
    ensures Order(a, t, r)
  {
    t := 1;
    while !IsOne(a, t, r)
      invariant 0 < t <= n && forall s :: 0 < s < t ==> !IsOne(a, s, r)
      decreases n - t
    {
      t := t + 1;
    }
  }

  /** A factor that is one can be dropped. */
  lemma {:induction false} DropOne(a: nat, d: nat, e: nat, r: nat)
    requires IsOne(a, d, r)
    ensures Same(Pow(a, d + e), Pow(a, e), r)
  {
    PowAdd(a, d, e);
    SameSelf(Pow(a, e), r);
    SameMul(Pow(a, d), 1, Pow(a, e), Pow(a, e), r);
  }

  lemma {:induction false} OneTimes(a: nat, t: nat, q: nat, r: nat)
    requires IsOne(a, t, r)
    ensures IsOne(a, q * t, r)
  {
    if q == 0 {
      SameSelf(1, r);
    } else {
      OneTimes(a, t, q - 1, r);
      assert q * t == t + (q - 1) * t;
      DropOne(a, t, (q - 1) * t, r);
      SameTrans(Pow(a, q * t), Pow(a, (q - 1) * t), 1, r);
    }
  }

  lemma {:induction false} OrderDivides(a: nat, t: nat, e: nat, r: nat)
    requires Order(a, t, r) && IsOne(a, e, r)
    ensures Divides(t, e)
  {
    var q, s := e / t, e % t;
    RemainderIsOne(a, t, q, s, e, r);
    assert Times(q, t) == e;
  }

  lemma {:induction false} RemainderIsOne(a: nat, t: nat, q: nat, s: nat, e: nat, r: nat)
    requires Order(a, t, r) && IsOne(a, e, r) && e == q * t + s && s < t
    ensures s == 0
  {
    OneTimes(a, t, q, r);
    DropOne(a, q * t, s, r);
    SameBack(Pow(a, e), Pow(a, s), r);
    SameTrans(Pow(a, s), Pow(a, e), 1, r);
    assert IsOne(a, s, r);
  }

  lemma {:induction false} DifferenceIsOne(a: nat, t: nat, r: nat, i: nat, j: nat)
    requires IsOne(a, t, r) && i < j && i <= t && Same(Pow(a, j), Pow(a, i), r)
    ensures IsOne(a, j - i, r)
  {
    var rest := t - i;
    SameSelf(Pow(a, rest), r);
    SameMul(Pow(a, j), Pow(a, i), Pow(a, rest), Pow(a, rest), r);
    PowAdd(a, j, rest);
    PowAdd(a, i, rest);
    assert i + rest == t && j + rest == t + (j - i);
    SameTrans(Pow(a, t + (j - i)), Pow(a, t), 1, r);
    DropOne(a, t, j - i, r);
    SameBack(Pow(a, t + (j - i)), Pow(a, j - i), r);
    SameTrans(Pow(a, j - i), Pow(a, t + (j - i)), 1, r);
  }

  lemma {:induction false} PowersDiffer(a: nat, t: nat, r: nat, i: nat, j: nat)
    requires Order(a, t, r) && i < j < t
    ensures !Same(Pow(a, j), Pow(a, i), r)
  {
    if Same(Pow(a, j), Pow(a, i), r) {
      DifferenceIsOne(a, t, r, i, j);
    }
  }

  lemma {:induction false} PowersNotZero(a: nat, t: nat, r: nat, i: nat)
    requires Order(a, t, r) && i < t && r > 1
    ensures !Same(Pow(a, i), 0, r)
  {
    if Same(Pow(a, i), 0, r) {
      SameSelf(Pow(a, t - i), r);
      SameMul(Pow(a, i), 0, Pow(a, t - i), Pow(a, t - i), r);
      PowAdd(a, i, t - i);
      SameBack(Pow(a, t), 1, r);
      SameTrans(1, Pow(a, t), 0, r);
      DivisorAtMost(r, 1);
    }
  }

  // An order is smaller than the modulus

  function Residues(a: nat, r: nat, n: nat): set<nat>
    requires r > 0
  {
    if n == 0 then {} else Residues(a, r, n - 1) + {Pow(a, n - 1) % r}
  }

  lemma {:induction false} ResidueOf(a: nat, r: nat, n: nat, x: nat) returns (i: nat)
    requires r > 0 && x in Residues(a, r, n)
    ensures i < n && x == Pow(a, i) % r
  {
    if x == Pow(a, n - 1) % r {
      i := n - 1;
    } else {
      i := ResidueOf(a, r, n - 1, x);
    }
  }

  lemma {:induction false} EqualResidues(x: nat, y: nat, r: nat)
    requires r > 0 && x % r == y % r
    ensures Same(x, y, r)
  {
    ModSame(x, r);
    ModSame(y, r);
    SameBack(x % r, x, r);
    SameTrans(x, x % r, y, r);
  }

  lemma {:induction false} ResiduesCount(a: nat, t: nat, r: nat, n: nat)
    requires Order(a, t, r) && r > 1 && n <= t
    ensures |Residues(a, r, n)| == n
    ensures forall x :: x in Residues(a, r, n) ==> 1 <= x < r
  {
    if n > 0 {
      ResiduesCount(a, t, r, n - 1);
      var x := Pow(a, n - 1) % r;
      if x in Residues(a, r, n - 1) {
        var i := ResidueOf(a, r, n - 1, x);
        EqualResidues(Pow(a, n - 1), Pow(a, i), r);
        PowersDiffer(a, t, r, i, n - 1);
      }
      if x == 0 {
        EqualResidues(Pow(a, n - 1), 0, r);
        PowersNotZero(a, t, r, n - 1);
      }
    }
  }

  function Upto(r: nat): set<nat> {
    if r <= 1 then {} else Upto(r - 1) + {r - 1}
  }

  lemma {:induction false} UptoCount(r: nat)
    requires r > 0
    ensures |Upto(r)| == r - 1 && forall x :: x in Upto(r) <==> 1 <= x < r
  {
    if r > 1 {
      UptoCount(r - 1);
    }
  }

  lemma {:induction false} OrderBelow(a: nat, t: nat, r: nat)
    requires Order(a, t, r) && r > 1
    ensures t < r
  {
    ResiduesCount(a, t, r, t);
    UptoCount(r);
    K.SubsetCount(Residues(a, r, t), Upto(r));
  }

  // Pocklington's criterion

  lemma {:induction false} DivisorOfDivisor(r: int, m: int, n: int)
    requires Divides(r, m) && Divides(m, n)
    ensures Divides(r, n)
  {
    var p :| Times(p, r) == m;
    var q :| Times(q, m) == n;
    Associate(q, p, r);
    assert Times(q * p, r) == n;
  }

  lemma {:induction false} PrimeOrCoprime(q: nat, t: nat)
    requires Prime(q) && !Divides(q, t)
    ensures Coprime(t, q)
  {
  }

  /** Whatever divisor of `n` is the modulus, the order of `a` is a multiple of `f`. */
  ghost predicate OrderMultiple(n: nat, a: nat, f: nat) {
    forall r: nat, t: nat :: r > 1 && Divides(r, n) && Order(a, t, r) ==> Divides(f, t)
  }

  /** So it is for a prime `q` dividing n - 1 = k q when a^(n-1) is one modulo n, and a^k - 1, with `x` for a^k, is
      invertible there. */
  lemma {:induction false} PrimeMultiple(n: nat, q: nat, k: nat, a: nat, x: nat, u: int, v: int)
    requires n > 1 && Prime(q) && k > 0 && n - 1 == k * q && IsOne(a, n - 1, n)
    requires Same(x, Pow(a, k), n) && u * (x - 1) + v * n == 1
    ensures OrderMultiple(n, a, q)
  {
    forall r: nat, t: nat | r > 1 && Divides(r, n) && Order(a, t, r)
      ensures Divides(q, t)
    {
      DivisorOfDivisor(r, n, Pow(a, n - 1) - 1);
      OrderDivides(a, t, n - 1, r);
      if !Divides(q, t) {
        PrimeOrCoprime(q, t);
        var c :| Times(c, t) == n - 1;
        CoprimeCancels(t, q, k, c);
        OneAtMultiple(a, t, k, r);
        DivisorOfDivisor(r, n, x - Pow(a, k));
        SameTrans(x, Pow(a, k), 1, r);
        NoCommonDivisor(x - 1, n, u, v, r);
      }
    }
  }

  lemma {:induction false} OneAtMultiple(a: nat, t: nat, k: nat, r: nat)
    requires t > 0 && IsOne(a, t, r) && Divides(t, k)
    ensures IsOne(a, k, r)
  {
    var d :| Times(d, t) == k;
    NonNegative(d, t, k);
    OneTimes(a, t, d, r);
  }

  lemma {:induction false} BothMultiples(n: nat, a: nat, f: nat, q: nat)
    requires q > 0 && OrderMultiple(n, a, f) && OrderMultiple(n, a, q) && Coprime(q, f)
    ensures OrderMultiple(n, a, q * f)
  {
    forall r: nat, t: nat | r > 1 && Divides(r, n) && Order(a, t, r)
      ensures Divides(q * f, t)
    {
      var p :| Times(p, f) == t;
      var c :| Times(c, q) == t;
      CoprimeCancels(q, f, p, c);
      var s :| Times(s, q) == p;
      Associate(s, q, f);
      assert Times(s, q * f) == t;
    }
  }

  lemma {:induction false} NonNegative(d: int, t: nat, k: nat)
    requires d * t == k && t > 0
    ensures d >= 0
  {
  }

  lemma {:induction false} NoCommonDivisor(x: int, n: int, u: int, v: int, r: nat)
    requires u * x + v * n == 1 && Divides(r, x) && Divides(r, n)
    ensures r <= 1
  {
    var p :| Times(p, r) == x;
    var q :| Times(q, r) == n;
    Associate(u, p, r);
    Associate(v, q, r);
    Distribute(u * p, v * q, r);
    assert Times(u * p + v * q, r) == 1;
    DivisorAtMost(r, 1);
  }

  lemma {:induction false} Grow(x: int, y: int, z: int)
    requires x >= y && z >= 0
    ensures x * z >= y * z
  {
    assert (x - y) * z >= 0;
  }

  lemma {:induction false} SecondFactor(c: int, r: nat, n: nat)
    requires c * r == n && n > 0
    ensures 0 < c && (c == 1 ==> r == n)
  {
    if c <= 0 {
      Grow(0, c, r);
    }
  }

  /** Then every divisor of n above 1 is above f, and if two of those do not fit, n is prime. */
  lemma {:induction false} Pocklington(n: nat, a: nat, f: nat)
    requires n > 1 && IsOne(a, n - 1, n) && OrderMultiple(n, a, f) && (f + 1) * (f + 1) > n
    ensures Prime(n)
  {
    forall r: nat | r > 1 && Divides(r, n)
      ensures r == n
    {
      var c :| Times(c, r) == n;
      SecondFactor(c, r, n);
      LargeDivisor(n, a, f, r);
      if c > 1 {
        assert Times(r, c) == n;
        LargeDivisor(n, a, f, c);
        Grow(c, f + 1, r);
        Grow(r, f + 1, f + 1);
      }
    }
  }

  lemma {:induction false} LargeDivisor(n: nat, a: nat, f: nat, r: nat)
    requires n > 1 && IsOne(a, n - 1, n) && OrderMultiple(n, a, f) && r > 1 && Divides(r, n)
    ensures r > f
  {
    DivisorOfDivisor(r, n, Pow(a, n - 1) - 1);
    var t := OrderExists(a, n - 1, r);
    OrderBelow(a, t, r);
    DivisorAtMost(f, t);
  }

  // Powers, three binary digits of the exponent at a time

  function Square(x: nat): nat {
    x * x
  }

  lemma {:induction false} SquareIs(a: nat, n: nat, e: nat, x: nat)
    requires Same(x, Pow(a, e), n)
    ensures Same(Square(x), Pow(a, 2 * e), n)
  {
    SameMul(x, Pow(a, e), x, Pow(a, e), n);
    PowAdd(a, e, e);
  }

  lemma {:induction false} Zeroth(a: nat, n: nat) returns (e: nat)
    ensures e == 0 && Same(1, Pow(a, e), n)
  {
    e := 0;
    SameSelf(1, n);
  }

  lemma {:induction false} EighthIs(a: nat, n: nat, e: nat, x: nat)
    requires Same(x, Pow(a, e), n)
    ensures Same(Square(Square(Square(x))), Pow(a, 8 * e), n)
  {
    SquareIs(a, n, e, x);
    SquareIs(a, n, 2 * e, Square(x));
    SquareIs(a, n, 4 * e, Square(Square(x)));
  }

  lemma {:induction false} Reduced(z: int, p: int, c: int, n: int, y: int)
    requires z == c * n + y && Same(z, p, n)
    ensures Same(y, p, n)
  {
    assert Times(-c, n) == y - z;
    SameTrans(y, z, p, n);
  }

  /** From a^e to a^(8e + d), with `c` for what the modulus takes away. */
  lemma {:induction false} Next(a: nat, n: nat, e: nat, x: nat, d: nat, c: nat, y: nat) returns (e': nat)
    requires Same(x, Pow(a, e), n) && Square(Square(Square(x))) * Pow(a, d) == c * n + y
    ensures e' == 8 * e + d && Same(y, Pow(a, e'), n)
  {
    e' := 8 * e + d;
    var z, w := Square(Square(Square(x))), Pow(a, d);
    EighthIs(a, n, e, x);
    Appended(a, n, 8 * e, d, z, w);
    Reduced(z * w, Pow(a, e'), c, n, y);
  }

  lemma {:induction false} Appended(a: nat, n: nat, e: nat, d: nat, z: nat, w: nat)
    requires Same(z, Pow(a, e), n) && w == Pow(a, d)
    ensures Same(z * w, Pow(a, e + d), n)
  {
    SameSelf(w, n);
    SameMul(z, Pow(a, e), w, w, n);
    PowAdd(a, e, d);
  }

  lemma {:induction false} FirstWhole(a: nat, n: nat)
    requires a == 6 && n == 148721
    ensures Same(1, Pow(a, n - 1), n)
  {
    var e := Zeroth(a, n);
    e := Next(a, n, e, 1, 4, 0, 1296);
    e := Next(a, n, e, 1296, 4, 69354192067633592741925, 121131);
    e := Next(a, n, e, 121131, 2, 11219477302865856149214988276720613188, 20128);
    e := Next(a, n, e, 20128, 3, 39127891389007147227554396148056, 117800);
    e := Next(a, n, e, 117800, 6, 11633155382378912760659967779667968881328, 18512);
    e := Next(a, n, e, 18512, 0, 92737297525962448888529933295, 1);
  }

  lemma {:induction false} FirstFifth(a: nat, n: nat)
    requires a == 6 && n == 148721
    ensures Same(75923, Pow(a, (n - 1) / 5), n)
  {
    var e := Zeroth(a, n);
    e := Next(a, n, e, 1, 7, 1, 131215);
    e := Next(a, n, e, 131215, 2, 21271498329502218212754994854163408422, 134238);
    e := Next(a, n, e, 134238, 0, 708975923800754713314871097291779480, 144616);
    e := Next(a, n, e, 144616, 6, 60015850565185386319070888121430918095262, 107074);
    e := Next(a, n, e, 107074, 0, 116171586287478414227982060599384893, 75923);
  }

  lemma {:induction false} FirstEleventh(a: nat, n: nat)
    requires a == 6 && n == 148721
    ensures Same(74939, Pow(a, (n - 1) / 11), n)
  {
    var e := Zeroth(a, n);
    e := Next(a, n, e, 1, 3, 0, 216);
    e := Next(a, n, e, 216, 2, 1146991535691517, 108499);
    e := Next(a, n, e, 108499, 3, 27892493323594815109664939445854602783, 21673);
    e := Next(a, n, e, 21673, 2, 11783721011961501110083926073395, 146721);
    e := Next(a, n, e, 146721, 0, 1443995798961576420482866643798818982, 74939);
  }

  lemma {:induction false} FirstThirteenth(a: nat, n: nat)
    requires a == 6 && n == 148721
    ensures Same(18050, Pow(a, (n - 1) / 13), n)
  {
    var e := Zeroth(a, n);
    e := Next(a, n, e, 1, 2, 0, 36);
    e := Next(a, n, e, 36, 6, 885024333095, 45641);
    e := Next(a, n, e, 45641, 2, 4557969494032038634846175400514216, 7420);
    e := Next(a, n, e, 7420, 6, 2882480961898052763378082245278, 10562);
    e := Next(a, n, e, 10562, 0, 1041350687890004690200300126, 18050);
  }

  lemma {:induction false} SecondWhole(a: nat, n: nat)
    requires a == 2 && n == 500000003
    ensures Same(1, Pow(a, n - 1), n)
  {
    var e := Zeroth(a, n);
    e := Next(a, n, e, 1, 3, 0, 8);
    e := Next(a, n, e, 8, 5, 1, 36870909);
    e := Next(a, n, e, 36870909, 6, 437200574808651054327252832601503996341065483719920370, 163024234);
    e := Next(a, n, e, 163024234, 3, 7982470573040444571075639176231339070707364133897959274564, 478202676);
    e := Next(a, n, e, 478202676, 2, 21876911050862603213441373149858163915977444691435148623725165, 377927609);
    e := Next(a, n, e, 377927609, 6, 53269537495483111191912461959360290586931842884531946873829794, 290953562);
    e := Next(a, n, e, 290953562, 2, 410846329835305512658303794377455283172740436825680892682530, 50787994);
    e := Next(a, n, e, 50787994, 4, 1416571345456328670057217148977619245774201508596403757, 144958585);
    e := Next(a, n, e, 144958585, 0, 389925395454283528979357587207223186097529062434001184263, 184337836);
    e := Next(a, n, e, 184337836, 2, 10666105211656493187395274678169644352412404766297024877141, 1);
  }

  lemma {:induction false} SecondPart(a: nat, n: nat)
    requires a == 2 && n == 500000003
    ensures Same(233858057, Pow(a, (n - 1) / 148721), n)
  {
    var e := Zeroth(a, n);
    e := Next(a, n, e, 1, 6, 0, 64);
    e := Next(a, n, e, 64, 4, 9007199, 100348899);
    e := Next(a, n, e, 100348899, 4, 329041647385305602550763338804787053789614814274991345428, 339384532);
    e := Next(a, n, e, 339384532, 2, 1408076798378085573068937420051628828274207509215213749508349, 233858057);
  }

  lemma {:induction false} SpreadWhole(a: nat, n: nat)
    requires a == 2 && n == 1000000007
    ensures Same(1, Pow(a, n - 1), n)
  {
    var e := Zeroth(a, n);
    e := Next(a, n, e, 1, 7, 0, 128);
    e := Next(a, n, e, 128, 3, 576460748, 268198252);
    e := Next(a, n, e, 268198252, 4, 428319181049406444189442107570843213536525085209870650772397, 12725317);
    e := Next(a, n, e, 12725317, 6, 44007718067230339200018136549684822567461706068630, 640088614);
    e := Next(a, n, e, 640088614, 5, 901718107735044309494070797340552961883343471753143128619309217, 460171673);
    e := Next(a, n, e, 460171673, 4, 32172071730724581982602154564876472067081436872655885573697986, 260524994);
    e := Next(a, n, e, 260524994, 5, 679117828355481637081026198411766275754037189631382256523920, 699680272);
    e := Next(a, n, e, 699680272, 0, 57437698235451520312832670549671322364656014887051736423554594, 445487378);
    e := Next(a, n, e, 445487378, 0, 1551255114443016305838213386432050194040877806663561873547028, 49274740);
    e := Next(a, n, e, 49274740, 6, 2224204433213572256653871007497059981953340347057142857, 1);
  }

  // The chain of primes

  lemma {:induction false} SmallPrime(n: nat)
    requires 3 < n < 16 && n % 2 != 0 && n % 3 != 0
    ensures Prime(n)
  {
    forall r: nat | r > 1 && Divides(r, n)
      ensures r == n
    {
      var c :| Times(c, r) == n;
      SecondFactor(c, r, n);
      NotTwoOrThree(c, r, n);
      if c > 1 {
        NotTwoOrThree(r, c, n);
        Grow(c, 4, r);
      }
    }
  }

  lemma {:induction false} NotTwoOrThree(c: int, r: nat, n: nat)
    requires c * r == n && n % 2 != 0 && n % 3 != 0
    ensures r != 2 && r != 3
  {
  }

  lemma {:induction false} FirstPrime(n: nat)
    requires n == 148721
    ensures Prime(n)
  {
    FirstWhole(6, n);
    SameBack(1, Pow(6, n - 1), n);
    SmallPrime(5);
    FirstFifth(6, n);
    PrimeMultiple(n, 5, (n - 1) / 5, 6, 75923, 51669, -26377);
    SmallPrime(11);
    FirstEleventh(6, n);
    PrimeMultiple(n, 11, (n - 1) / 11, 6, 74939, 70562, -35555);
    SmallPrime(13);
    FirstThirteenth(6, n);
    PrimeMultiple(n, 13, (n - 1) / 13, 6, 18050, 17246, -2093);
    PrimeOrCoprime(5, 11);
    BothMultiples(n, 6, 5, 11);
    PrimeOrCoprime(13, 55);
    BothMultiples(n, 6, 13, 55);
    Pocklington(n, 6, 715);
  }

  lemma {:induction false} SecondPrime(n: nat)
    requires n == 500000003
    ensures Prime(n)
  {
    FirstPrime(148721);
    SecondWhole(2, n);
    SameBack(1, Pow(2, n - 1), n);
    SecondPart(2, n);
    PrimeMultiple(n, 148721, (n - 1) / 148721, 2, 233858057, 83853663, -39219709);
    Pocklington(n, 2, 148721);
  }

  /** The stride is prime. */
  lemma {:induction false} SpreadPrime(n: nat)
    requires n == 1_000_000_007
    ensures Prime(n)
  {
    SecondPrime(500000003);
    SpreadWhole(2, n);
    SameBack(1, Pow(2, n - 1), n);
    SameSelf(4, n);
    PrimeMultiple(n, 500000003, 2, 2, 4, 333333336, -1);
    Pocklington(n, 2, 500000003);
  }

  /** So no thread count below the stride lets two threads stand at one value before a counter wraps. */
  lemma {:induction false} SmallCountsNeverMeet(count: nat)
    requires 0 < count < 1_000_000_007
    ensures Coprime(count, 1_000_000_007) && NeverMeet(count)
  {
    SpreadPrime(SPREAD);
    forall g: nat | g > 1 && Divides(g, SPREAD)
      ensures !Divides(g, count)
    {
      if Divides(g, count) {
        DivisorAtMost(g, count);
      }
    }
    NeverMeetIffCoprime(count);
  }
}
