/** Complex numbers over exact reals, as far as the tone detector needs them. */
module Complex {
  import opened Reals

  datatype C = C(re: real, im: real)

  const ZERO := C(0.0, 0.0)
  const ONE := C(1.0, 0.0)

  function Add(a: C, b: C): C {
    C(a.re + b.re, a.im + b.im)
  }

  function Mul(a: C, b: C): C {
    C(a.re * b.re - a.im * b.im, a.re * b.im + a.im * b.re)
  }

  function Scale(k: real, a: C): C {
    C(k * a.re, k * a.im)
  }

  function Conj(a: C): C {
    C(a.re, -a.im)
  }

  /** The squared modulus. */
  function Norm2(a: C): real {
    Square(a.re) + Square(a.im)
  }

  function Pow(z: C, n: nat): C {
    if n == 0 then ONE else Mul(z, Pow(z, n - 1))
  }

  lemma MulComm(a: C, b: C)
    ensures Mul(a, b) == Mul(b, a)
  {
  }

  lemma MulAssoc(a: C, b: C, c: C)
    ensures Mul(Mul(a, b), c) == Mul(a, Mul(b, c))
  {
  }

  lemma MulAdd(a: C, b: C, c: C)
    ensures Mul(a, Add(b, c)) == Add(Mul(a, b), Mul(a, c))
  {
  }

  lemma MulScale(k: real, a: C, b: C)
    ensures Mul(a, Scale(k, b)) == Scale(k, Mul(a, b))
  {
  }

  lemma MulOne(a: C)
    ensures Mul(ONE, a) == a && Mul(a, ONE) == a
  {
  }

  lemma ConjMul(a: C, b: C)
    ensures Conj(Mul(a, b)) == Mul(Conj(a), Conj(b))
  {
  }

  lemma NormMul(a: C, b: C)
    ensures Norm2(Mul(a, b)) == Times(Norm2(a), Norm2(b))
  {
  }

  lemma NormPositive(a: C)
    ensures Norm2(a) >= 0.0
    ensures Norm2(a) == 0.0 <==> a == ZERO
  {
    hide Square;
    SquareSign(a.re);
    SquareSign(a.im);
  }

  /** No zero divisors. */
  lemma ProductIsZero(a: C, b: C)
    requires Mul(a, b) == ZERO && a != ZERO
    ensures b == ZERO
  {
    NormMul(a, b);
    NormPositive(a);
    NormPositive(b);
    NormPositive(ZERO);
    hide Norm2, Times, Mul;
    if b != ZERO {
      TimesPositive(Norm2(a), Norm2(b));
    }
  }

  /** (ab)(cd) == (ac)(bd). */
  lemma MulSwap(a: C, b: C, c: C, d: C)
    ensures Mul(Mul(a, b), Mul(c, d)) == Mul(Mul(a, c), Mul(b, d))
  {
    MulAssoc(a, b, Mul(c, d));
    MulAssoc(b, c, d);
    MulComm(b, c);
    MulAssoc(c, b, d);
    MulAssoc(a, c, Mul(b, d));
  }

  lemma {:induction false} PowAdd(z: C, m: nat, n: nat)
    ensures Pow(z, m + n) == Mul(Pow(z, m), Pow(z, n))
  {
    if m == 0 {
    } else {
      PowAdd(z, m - 1, n);
      MulAssoc(z, Pow(z, m - 1), Pow(z, n));
    }
  }

  lemma {:induction false} PowMul(a: C, b: C, n: nat)
    ensures Pow(Mul(a, b), n) == Mul(Pow(a, n), Pow(b, n))
  {
    if n == 0 {
    } else {
      PowMul(a, b, n - 1);
      MulSwap(a, b, Pow(a, n - 1), Pow(b, n - 1));
    }
  }

  /** Whole turns do not move a root of unity. */
  lemma {:induction false} PowWholeTurns(z: C, n: nat, k: nat)
    requires Pow(z, n) == ONE
    ensures Pow(z, k * n) == ONE
  {
    hide Mul;
    if k == 0 {
    } else {
      PowWholeTurns(z, n, k - 1);
      assert k * n == n + (k - 1) * n;
      PowAdd(z, n, (k - 1) * n);
      MulOne(ONE);
    }
  }

  lemma {:induction false} PowPow(z: C, m: nat, n: nat)
    ensures Pow(Pow(z, m), n) == Pow(z, m * n)
  {
    hide Mul;
    if n == 0 {
    } else {
      PowPow(z, m, n - 1);
      assert m * n == m + m * (n - 1);
      PowAdd(z, m, m * (n - 1));
    }
  }

  lemma {:induction false} PowConj(z: C, n: nat)
    ensures Pow(Conj(z), n) == Conj(Pow(z, n))
  {
    if n == 0 {
    } else {
      PowConj(z, n - 1);
      ConjMul(z, Pow(z, n - 1));
    }
  }

  lemma {:induction false} PowUnit(z: C, n: nat)
    requires Norm2(z) == 1.0
    ensures Norm2(Pow(z, n)) == 1.0
  {
    if n == 0 {
    } else {
      PowUnit(z, n - 1);
      NormMul(z, Pow(z, n - 1));
    }
  }

  lemma UnitInverse(z: C)
    requires Norm2(z) == 1.0
    ensures Mul(z, Conj(z)) == ONE
  {
  }
}
