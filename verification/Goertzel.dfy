/** The single-bin tone detector: the two-register Goertzel recurrence, the Fourier bin it
    computes, and what it reads from a pure tone.

    The rotation by one sample at bin `k` of an `n`-sample window is `Pow(turn, k)`, where
    `turn` stands for e^(2·pi·i/n): any primitive n-th root of unity on the unit circle. */
module Goertzel {
  import opened Reals
  import opened Complex

  /** Sum of x[i]·conj(z)^i: one bin of the discrete Fourier transform. */
  function Dft(x: seq<real>, z: C): C {
    if |x| == 0 then ZERO
    else
      var last := |x| - 1;
      Add(Dft(x[..last], z), Scale(x[last], Pow(Conj(z), last)))
  }

  /** Sum of x[i]·z^(n-1-i): what the two registers hold between them. */
  ghost function Horner(x: seq<real>, z: C): C {
    if |x| == 0 then ZERO
    else
      var last := |x| - 1;
      Add(Mul(z, Horner(x[..last], z)), C(x[last], 0.0))
  }

  /** The registers `s1`, `s2` encode s1 - conj(z)·s2. */
  ghost function Registers(s1: real, s2: real, z: C): C {
    C(s1 - s2 * z.re, s2 * z.im)
  }

  lemma RecurrenceStep(s1: real, s2: real, x: real, z: C)
    requires Norm2(z) == 1.0
    ensures Add(Mul(z, Registers(s1, s2, z)), C(x, 0.0)) == Registers(x + 2.0 * z.re * s1 - s2, s1, z)
  {
    var c, s := z.re, z.im;
    assert c * c + s * s == 1.0;
    assert c * (s1 - s2 * c) - s * (s2 * s) == c * s1 - s2 * (c * c + s * s);
  }

  lemma RegistersNorm(s1: real, s2: real, z: C)
    requires Norm2(z) == 1.0
    ensures s1 * s1 + s2 * s2 - 2.0 * z.re * s1 * s2 == Norm2(Registers(s1, s2, z))
  {
    var c, s := z.re, z.im;
    assert c * c + s * s == 1.0;
    calc {
      Norm2(Registers(s1, s2, z));
      (s1 - s2 * c) * (s1 - s2 * c) + (s2 * s) * (s2 * s);
      s1 * s1 - 2.0 * c * s1 * s2 + (s2 * s2) * (c * c + s * s);
      s1 * s1 - 2.0 * c * s1 * s2 + s2 * s2;
    }
  }

  /** z^n·conj(z)^n == 1 on the unit circle. */
  lemma PowCancel(z: C, n: nat)
    requires Norm2(z) == 1.0
    ensures Mul(Pow(z, n), Pow(Conj(z), n)) == ONE
  {
    PowUnit(z, n);
    PowConj(z, n);
    UnitInverse(Pow(z, n));
  }

  /** Horner's sum is the Fourier sum turned by a whole number of samples. */
  lemma {:induction false} HornerTurnsDft(x: seq<real>, z: C)
    requires Norm2(z) == 1.0
    ensures Mul(z, Horner(x, z)) == Mul(Pow(z, |x|), Dft(x, z))
  {
    if |x| == 0 {
      return;
    }
    var last := |x| - 1;
    var init, y := x[..last], C(x[last], 0.0);
    HornerTurnsDft(init, z);
    var p, q := Pow(z, last), Pow(Conj(z), last);
    calc {
      Mul(Pow(z, |x|), Dft(x, z));
      { assert Pow(z, |x|) == Mul(z, p); }
      Mul(Mul(z, p), Add(Dft(init, z), Scale(x[last], q)));
      { hide Mul; MulAdd(Mul(z, p), Dft(init, z), Scale(x[last], q)); }
      Add(Mul(Mul(z, p), Dft(init, z)), Mul(Mul(z, p), Scale(x[last], q)));
      { hide Mul; MulAssoc(z, p, Dft(init, z)); }
      Add(Mul(z, Mul(z, Horner(init, z))), Mul(Mul(z, p), Scale(x[last], q)));
      { hide Mul; MulScale(x[last], Mul(z, p), q); MulAssoc(z, p, q); PowCancel(z, last); MulOne(z); }
      Add(Mul(z, Mul(z, Horner(init, z))), Scale(x[last], z));
      { ScaleIsMul(x[last], z); }
      Add(Mul(z, Mul(z, Horner(init, z))), Mul(z, y));
      { hide Mul; MulAdd(z, Mul(z, Horner(init, z)), y); }
      Mul(z, Horner(x, z));
    }
  }

  lemma ScaleIsMul(k: real, z: C)
    ensures Scale(k, z) == Mul(z, C(k, 0.0))
  {
  }

  lemma HornerNorm(x: seq<real>, z: C)
    requires Norm2(z) == 1.0
    ensures Norm2(Horner(x, z)) == Norm2(Dft(x, z))
  {
    HornerTurnsDft(x, z);
    PowUnit(z, |x|);
    NormMul(z, Horner(x, z));
    NormMul(Pow(z, |x|), Dft(x, z));
    assert Times(1.0, Norm2(Horner(x, z))) == Times(1.0, Norm2(Dft(x, z))) by {
      hide Mul, Times, Norm2;
    }
  }

  /** The squared Goertzel magnitude is the squared modulus of the Fourier bin, for every window
      and every unit rotation `z`; the value under the square root is never negative. */
  method Power(samples: seq<real>, z: C) returns (power: real)
    requires Norm2(z) == 1.0
    ensures power == Norm2(Dft(samples, z))
    ensures power >= 0.0
  {
    if |samples| == 0 {
      NormPositive(ZERO);
      return 0.0;
    }
    var coeff := 2.0 * z.re;
    var s1, s2 := 0.0, 0.0;
    for i := 0 to |samples|
      invariant Horner(samples[..i], z) == Registers(s1, s2, z)
    {
      assert samples[..i + 1][..i] == samples[..i];
      RecurrenceStep(s1, s2, samples[i], z);
      var s0 := samples[i] + coeff * s1 - s2;
      s2 := s1;
      s1 := s0;
    }
    assert samples[..|samples|] == samples;
    RegistersNorm(s1, s2, z);
    HornerNorm(samples, z);
    NormPositive(Dft(samples, z));
    power := s1 * s1 + s2 * s2 - coeff * s1 * s2;
  }
}
