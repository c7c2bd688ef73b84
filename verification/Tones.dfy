/** Pure tones and the bins they light up: the detector separates exact tones perfectly. */
module Tones {
  import opened Reals
  import opened Complex
  import opened Goertzel

  /** A primitive n-th root of unity on the unit circle. */
  ghost predicate IsTurn(u: C, n: nat) {
    && Norm2(u) == 1.0
    && Pow(u, n) == ONE
    && forall j :: 0 < j < n ==> Pow(u, j) != ONE
  }

  /** The value a·cos + b·sin at phase `p`. */
  function Sample(a: real, b: real, p: C): real {
    a * p.re + b * p.im
  }

  /** n samples of a tone that rotates by `v` per sample. */
  function Tone(v: C, a: real, b: real, n: nat): seq<real> {
    seq(n, (i: nat) => Sample(a, b, Pow(v, i)))
  }

  const MINUS_ONE := C(-1.0, 0.0)

  ghost function Geometric(w: C, n: nat): C {
    if n == 0 then ZERO else Add(Geometric(w, n - 1), Pow(w, n - 1))
  }

  lemma TelescopeStep(w: C, g: C, p: C, q: C)
    requires Mul(Add(w, MINUS_ONE), g) == Add(p, MINUS_ONE)
    requires q == Mul(w, p)
    ensures Mul(Add(w, MINUS_ONE), Add(g, p)) == Add(q, MINUS_ONE)
  {
    MulAdd(Add(w, MINUS_ONE), g, p);
    assert Mul(Add(w, MINUS_ONE), p) == Add(q, Mul(MINUS_ONE, p));
  }

  lemma {:induction false} GeometricTelescopes(w: C, n: nat)
    ensures Mul(Add(w, MINUS_ONE), Geometric(w, n)) == Add(Pow(w, n), MINUS_ONE)
  {
    if n == 0 {
    } else {
      GeometricTelescopes(w, n - 1);
      hide Mul;
      TelescopeStep(w, Geometric(w, n - 1), Pow(w, n - 1), Pow(w, n));
    }
  }

  /** The powers of a non-trivial root of unity cancel. */
  lemma RootsCancel(w: C, n: nat)
    requires Pow(w, n) == ONE && w != ONE
    ensures Geometric(w, n) == ZERO
  {
    GeometricTelescopes(w, n);
    assert Add(w, MINUS_ONE) != ZERO by {
      assert w == C(w.re, w.im);
    }
    hide Mul, Pow, Geometric;
    ProductIsZero(Add(w, MINUS_ONE), Geometric(w, n));
  }

  lemma {:induction false} OnesAddUp(n: nat)
    ensures Pow(ONE, n) == ONE && Geometric(ONE, n) == C(n as real, 0.0)
  {
    hide Mul;
    if n == 0 {
    } else {
      OnesAddUp(n - 1);
      MulOne(ONE);
    }
  }

  /** Half the amplitude, as the complex weight of the rotation by `v`. */
  ghost function Weight(a: real, b: real): C {
    C(a / 2.0, -b / 2.0)
  }

  /** One sample splits into two opposite rotations. */
  lemma SampleSplits(a: real, b: real, p: C, q: C)
    ensures Scale(Sample(a, b, p), q)
         == Add(Mul(Weight(a, b), Mul(p, q)), Mul(Conj(Weight(a, b)), Mul(Conj(p), q)))
  {
    var x, y := a / 2.0, b / 2.0;
    HalvesOf(a, b);
    hide Mul, Scale, Sample, Weight;
    SplitRe(x, y, p, q);
    SplitIm(x, y, p, q);
  }

  lemma HalvesOf(a: real, b: real)
    ensures var x, y := a / 2.0, b / 2.0;
      a == 2.0 * x && b == 2.0 * y && Weight(a, b) == C(x, -y) && Conj(Weight(a, b)) == C(x, y)
  {
  }

  lemma SplitRe(x: real, y: real, p: C, q: C)
    ensures Scale(Sample(2.0 * x, 2.0 * y, p), q).re
         == Mul(C(x, -y), Mul(p, q)).re + Mul(C(x, y), Mul(Conj(p), q)).re
  {
    RotationsMeet(p, q);
    WeightedParts(x, y, Mul(p, q), Mul(Conj(p), q));
    SampleTimes(x, y, p, q.re);
    ScaleIsTimes(Sample(2.0 * x, 2.0 * y, p), q);
    hide Times, Mul, Sample, Scale;
  }

  lemma SplitIm(x: real, y: real, p: C, q: C)
    ensures Scale(Sample(2.0 * x, 2.0 * y, p), q).im
         == Mul(C(x, -y), Mul(p, q)).im + Mul(C(x, y), Mul(Conj(p), q)).im
  {
    RotationsMeet(p, q);
    WeightedParts(x, y, Mul(p, q), Mul(Conj(p), q));
    SampleTimes(x, y, p, q.im);
    ScaleIsTimes(Sample(2.0 * x, 2.0 * y, p), q);
    hide Times, Mul, Sample, Scale;
  }

  /** What two opposite rotations by `p` have in common and in difference. */
  lemma RotationsMeet(p: C, q: C)
    ensures var m, n := Mul(p, q), Mul(Conj(p), q);
      && m.re + n.re == 2.0 * (p.re * q.re) && m.im - n.im == 2.0 * (p.im * q.re)
      && m.im + n.im == 2.0 * (p.re * q.im) && n.re - m.re == 2.0 * (p.im * q.im)
  {
  }

  lemma WeightedParts(x: real, y: real, m: C, n: C)
    ensures Mul(C(x, -y), m).re + Mul(C(x, y), n).re == Times(x, m.re + n.re) + Times(y, m.im - n.im)
    ensures Mul(C(x, -y), m).im + Mul(C(x, y), n).im == Times(x, m.im + n.im) + Times(y, n.re - m.re)
  {
  }

  lemma SampleTimes(x: real, y: real, p: C, c: real)
    ensures Times(Sample(2.0 * x, 2.0 * y, p), c) == Times(x, 2.0 * (p.re * c)) + Times(y, 2.0 * (p.im * c))
  {
    var k := 2.0 * x * p.re + 2.0 * y * p.im;
    assert k * c == x * (2.0 * (p.re * c)) + y * (2.0 * (p.im * c));
  }

  lemma ScaleIsTimes(k: real, q: C)
    ensures Scale(k, q) == C(Times(k, q.re), Times(k, q.im))
  {
  }

  lemma {:induction false} ToneDft(v: C, z: C, a: real, b: real, n: nat)
    ensures Dft(Tone(v, a, b, n), z)
         == Add(Mul(Weight(a, b), Geometric(Mul(v, Conj(z)), n)),
                Mul(Conj(Weight(a, b)), Geometric(Mul(Conj(v), Conj(z)), n)))
  {
    var w := Weight(a, b);
    if n == 0 {
      MulZero(w);
      MulZero(Conj(w));
    } else {
      var m := n - 1;
      var x, p, q := Tone(v, a, b, n), Pow(v, m), Pow(Conj(z), m);
      ToneDft(v, z, a, b, m);
      assert x[..m] == Tone(v, a, b, m);
      assert x[m] == Sample(a, b, p);
      hide Mul, Weight, Pow, Conj, Scale, Sample;
      SampleSplits(a, b, p, q);
      PowMul(v, Conj(z), m);
      PowConj(v, m);
      PowMul(Conj(v), Conj(z), m);
      MulAdd(w, Geometric(Mul(v, Conj(z)), m), Mul(p, q));
      MulAdd(Conj(w), Geometric(Mul(Conj(v), Conj(z)), m), Mul(Conj(p), q));
    }
  }

  lemma BinIsRoot(u: C, n: nat, k: nat)
    requires IsTurn(u, n)
    ensures Norm2(Pow(u, k)) == 1.0
    ensures Pow(Pow(u, k), n) == ONE && Pow(Conj(Pow(u, k)), n) == ONE
  {
    hide Mul, Norm2;
    PowUnit(u, k);
    PowPow(u, k, n);
    PowWholeTurns(u, n, k);
    PowConj(Pow(u, k), n);
  }

  /** Only whole turns come back to where they started. */
  lemma WholeTurnIff(u: C, n: nat, d: nat)
    requires IsTurn(u, n) && n > 0
    ensures Pow(u, d) == ONE <==> d % n == 0
  {
    hide Mul, Pow, Norm2;
    var turns, rest := d / n, d % n;
    assert d == turns * n + rest;
    PowAdd(u, turns * n, rest);
    PowWholeTurns(u, n, turns);
    MulOne(Pow(u, rest));
    if rest == 0 {
      PowNothing(u);
    }
  }

  lemma PowNothing(u: C)
    ensures Pow(u, 0) == ONE
  {
  }

  /** A real tone on bin j cannot be told from one on bin k: they turn alike, or as mirror images. */
  predicate OnBin(n: nat, j: int, k: int)
    requires n > 0
  {
    (j - k) % n == 0 || (j + k) % n == 0
  }

  /** When two bins rotate alike, and when in opposite directions. */
  lemma RotationsAgreeIff(u: C, n: nat, j: nat, k: nat)
    requires IsTurn(u, n) && n > 0
    ensures Mul(Pow(u, j), Conj(Pow(u, k))) == ONE <==> (j - k) % n == 0
    ensures Mul(Conj(Pow(u, j)), Conj(Pow(u, k))) == ONE <==> (j + k) % n == 0
  {
    hide Mul, Pow, Norm2;
    var p, q := Pow(u, j), Pow(u, k);
    PowUnit(u, j);
    PowUnit(u, k);
    if Mul(p, Conj(q)) == ONE {
      CancelUnit(p, q);
    }
    UnitInverse(p);
    if k <= j {
      SameBinIff(u, n, k, j);
    } else {
      SameBinIff(u, n, j, k);
      ModOfNegation(k - j, n);
    }
    ConjMul(p, q);
    PowAdd(u, j, k);
    WholeTurnIff(u, n, j + k);
    ConjIsOne(Mul(p, q));
  }

  lemma ConjIsOne(a: C)
    ensures Conj(a) == ONE <==> a == ONE
  {
  }

  lemma ModOfNegation(d: int, n: nat)
    requires n > 0
    ensures d % n == 0 <==> (-d) % n == 0
  {
    if d % n == 0 {
      assert -d == n * (-(d / n));
      WholeMultiple(-(d / n), n);
    }
    if (-d) % n == 0 {
      assert d == n * (-((-d) / n));
      WholeMultiple(-((-d) / n), n);
    }
  }

  lemma WholeMultiple(q: int, n: nat)
    requires n > 0
    ensures (n * q) % n == 0
  {
    var m := n * q;
    var k := m / n;
    Scaled(n, q - k);
    assert n * (q - k) == m - n * k;
  }

  /** A multiple of n that is not 0 is at least n away from 0. */
  lemma {:induction false} Scaled(n: int, d: int)
    requires n > 0
    ensures d > 0 ==> n * d >= n
    ensures d < 0 ==> n * d <= -n
    ensures d == 0 ==> n * d == 0
    decreases if d < 0 then -d else d
  {
    if d > 0 {
      Scaled(n, d - 1);
      assert n * d == n * (d - 1) + n;
    } else if d < 0 {
      Scaled(n, d + 1);
      assert n * d == n * (d + 1) - n;
    }
  }

  lemma SameBinIff(u: C, n: nat, j: nat, k: nat)
    requires IsTurn(u, n) && n > 0 && j <= k
    ensures Pow(u, j) == Pow(u, k) <==> (k - j) % n == 0
  {
    hide Mul, Pow, Norm2;
    WholeTurnIff(u, n, k - j);
    PowAdd(u, k - j, j);
    MulOne(Pow(u, j));
    if Pow(u, j) == Pow(u, k) && j < k {
      BinsEqual(u, j, k);
    }
  }

  /** A bin that is not its own mirror image is not met in both directions. */
  lemma OneDirection(n: nat, j: nat, k: nat)
    requires n > 0 && (2 * j) % n != 0
    ensures !((j - k) % n == 0 && (j + k) % n == 0)
  {
    if (j - k) % n == 0 && (j + k) % n == 0 {
      var a, b := (j - k) / n, (j + k) / n;
      assert 2 * j == n * a + n * b == n * (a + b);
      WholeMultiple(a + b, n);
      assert false;
    }
  }

  lemma CancelUnit(p: C, q: C)
    requires Norm2(q) == 1.0 && Mul(p, Conj(q)) == ONE
    ensures p == q
  {
    hide Mul, Norm2;
    UnitInverse(q);
    MulComm(q, Conj(q));
    MulAssoc(p, Conj(q), q);
    MulOne(p);
    MulOne(q);
  }

  lemma BinsEqual(u: C, j: nat, k: nat)
    requires Norm2(u) == 1.0 && j < k && Pow(u, j) == Pow(u, k)
    ensures Pow(u, k - j) == ONE
  {
    hide Mul, Norm2, Pow;
    PowAdd(u, k - j, j);
    var d, p := Pow(u, k - j), Pow(u, j);
    PowUnit(u, j);
    UnitInverse(p);
    MulAssoc(d, p, Conj(p));
    MulOne(d);
  }

  /** Orthogonality: a tone on bin `j` reads as (n/2)²·(a² + b²) on its own bin and on the aliases of it,
      and as exactly zero on every other, whatever its amplitude and phase. The tone's bin is any that is
      not its own mirror image, so neither 0 nor n/2. */
  lemma ToneSpectrum(u: C, n: nat, j: nat, k: nat, a: real, b: real)
    requires IsTurn(u, n) && n > 0 && (2 * j) % n != 0
    ensures Norm2(Dft(Tone(Pow(u, j), a, b, n), Pow(u, k)))
         == if OnBin(n, j, k) then Square(n as real / 2.0) * (Square(a) + Square(b)) else 0.0
  {
    hide Mul, Pow, Norm2, Geometric, Dft, Weight, Times, Tone;
    var v, z, w := Pow(u, j), Pow(u, k), Weight(a, b);
    ToneDft(v, z, a, b, n);
    BinIsRoot(u, n, j);
    BinIsRoot(u, n, k);
    RotationsAgreeIff(u, n, j, k);
    OneDirection(n, j, k);
    MulOne(ONE);
    PowMul(v, Conj(z), n);
    PowMul(Conj(v), Conj(z), n);
    OnesAddUp(n);
    if (j - k) % n == 0 {
      RootsCancel(Mul(Conj(v), Conj(z)), n);
      OwnBinNorm(a, b, n as real);
    } else if (j + k) % n == 0 {
      RootsCancel(Mul(v, Conj(z)), n);
      OwnBinNorm(a, b, n as real);
    } else {
      RootsCancel(Mul(v, Conj(z)), n);
      RootsCancel(Mul(Conj(v), Conj(z)), n);
      MulZero(w);
      MulZero(Conj(w));
      NormPositive(ZERO);
    }
  }

  lemma MulZero(a: C)
    ensures Mul(a, ZERO) == ZERO
  {
  }

  lemma OwnBinNorm(a: real, b: real, n: real)
    ensures Norm2(Add(Mul(Weight(a, b), C(n, 0.0)), Mul(Conj(Weight(a, b)), ZERO)))
         == Square(n / 2.0) * (Square(a) + Square(b))
    ensures Norm2(Add(Mul(Weight(a, b), ZERO), Mul(Conj(Weight(a, b)), C(n, 0.0))))
         == Square(n / 2.0) * (Square(a) + Square(b))
  {
    assert Add(Mul(Weight(a, b), C(n, 0.0)), Mul(Conj(Weight(a, b)), ZERO)) == C(n / 2.0 * a, -(n / 2.0 * b));
    assert Add(Mul(Weight(a, b), ZERO), Mul(Conj(Weight(a, b)), C(n, 0.0))) == C(n / 2.0 * a, n / 2.0 * b);
    var h := n / 2.0;
    assert (h * a) * (h * a) + (h * b) * (h * b) == (h * h) * (a * a + b * b);
  }
}
