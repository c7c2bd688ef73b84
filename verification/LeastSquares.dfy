/** The least-squares slope behind the leak verdicts. Products are written `Times`, so that a proof
    can treat them as opaque where only their signs or sums matter. */
module LeastSquares {
  import opened Reals

  datatype Point = Point(x: real, y: real)

  function SumX(ps: seq<Point>): real {
    if |ps| == 0 then 0.0 else SumX(ps[..|ps| - 1]) + ps[|ps| - 1].x
  }

  function SumY(ps: seq<Point>): real {
    if |ps| == 0 then 0.0 else SumY(ps[..|ps| - 1]) + ps[|ps| - 1].y
  }

  function SumXX(ps: seq<Point>): real {
    if |ps| == 0 then 0.0 else SumXX(ps[..|ps| - 1]) + Square(ps[|ps| - 1].x)
  }

  function SumXY(ps: seq<Point>): real {
    if |ps| == 0 then 0.0 else SumXY(ps[..|ps| - 1]) + Times(ps[|ps| - 1].x, ps[|ps| - 1].y)
  }

  /** n·Σx² - (Σx)². */
  function Denominator(ps: seq<Point>): real {
    Times(|ps| as real, SumXX(ps)) - Square(SumX(ps))
  }

  /** n·Σxy - Σx·Σy. */
  function Numerator(ps: seq<Point>): real {
    Times(|ps| as real, SumXY(ps)) - Times(SumX(ps), SumY(ps))
  }

  function Slope(ps: seq<Point>): real {
    if |ps| < 2 || Denominator(ps) == 0.0 then 0.0 else Numerator(ps) / Denominator(ps)
  }

  method LinearSlope(points: seq<Point>) returns (slope: real)
    ensures slope == Slope(points)
  {
    hide Times;
    var n := |points|;
    if n < 2 {
      return 0.0;
    }
    var sx, sy, sxx, sxy := 0.0, 0.0, 0.0, 0.0;
    for i := 0 to n
      invariant sx == SumX(points[..i]) && sy == SumY(points[..i])
      invariant sxx == SumXX(points[..i]) && sxy == SumXY(points[..i])
    {
      assert points[..i + 1][..i] == points[..i];
      var Point(x, y) := points[i];
      sx := sx + x;
      sy := sy + y;
      sxx := sxx + Times(x, x);
      sxy := sxy + Times(x, y);
    }
    assert points[..n] == points;
    var denom := Times(n as real, sxx) - Times(sx, sx);
    slope := if denom == 0.0 then 0.0 else (Times(n as real, sxy) - Times(sx, sy)) / denom;
  }

  // ------------------------------------------------------- both sums, pair by pair

  /** Sum of (x[i] - p.x)² over the points. */
  ghost function Spread(ps: seq<Point>, p: Point): real {
    if |ps| == 0 then 0.0
    else Spread(ps[..|ps| - 1], p) + Square(ps[|ps| - 1].x - p.x)
  }

  /** Sum of (x[i] - p.x)·(y[i] - p.y) over the points. */
  ghost function CoSpread(ps: seq<Point>, p: Point): real {
    if |ps| == 0 then 0.0
    else CoSpread(ps[..|ps| - 1], p) + Times(ps[|ps| - 1].x - p.x, ps[|ps| - 1].y - p.y)
  }

  /** n·Σxy - Σx·Σy grows by this when the point (x, y) joins n others. */
  ghost function Growth(n: real, sx: real, sy: real, sxy: real, x: real, y: real): real {
    sxy - Times(y, sx) - Times(x, sy) + Times(n, Times(x, y))
  }

  lemma GrowthOfSum(n: real, sx: real, sy: real, sxy: real, x: real, y: real, u: real, v: real)
    ensures Growth(n + 1.0, sx + u, sy + v, sxy + Times(u, v), x, y)
         == Growth(n, sx, sy, sxy, x, y) + Times(u - x, v - y)
  {
  }

  lemma GrowthOfPair(n: real, sx: real, sy: real, sxy: real, x: real, y: real)
    ensures Times(n + 1.0, sxy + Times(x, y)) - Times(sx + x, sy + y)
         == Times(n, sxy) - Times(sx, sy) + Growth(n, sx, sy, sxy, x, y)
  {
  }

  lemma GrowthOfNothing(x: real, y: real)
    ensures Growth(0.0, 0.0, 0.0, 0.0, x, y) == 0.0
  {
  }

  lemma {:induction false} SpreadIsGrowth(ps: seq<Point>, p: Point)
    ensures Spread(ps, p) == Growth(|ps| as real, SumX(ps), SumX(ps), SumXX(ps), p.x, p.x)
    ensures CoSpread(ps, p) == Growth(|ps| as real, SumX(ps), SumY(ps), SumXY(ps), p.x, p.y)
  {
    hide Times, Growth;
    if |ps| == 0 {
      GrowthOfNothing(p.x, p.x);
      GrowthOfNothing(p.x, p.y);
    } else {
      var init, q := ps[..|ps| - 1], ps[|ps| - 1];
      SpreadIsGrowth(init, p);
      GrowthOfSum(|init| as real, SumX(init), SumX(init), SumXX(init), p.x, p.x, q.x, q.x);
      GrowthOfSum(|init| as real, SumX(init), SumY(init), SumXY(init), p.x, p.y, q.x, q.y);
    }
  }

  /** Each sum grows by the spread of the earlier points around the new one, so it is a sum over all
      pairs of points. */
  lemma SumsGrowByPairs(ps: seq<Point>)
    requires |ps| > 0
    ensures var init, p := ps[..|ps| - 1], ps[|ps| - 1];
      && Denominator(ps) == Denominator(init) + Spread(init, p)
      && Numerator(ps) == Numerator(init) + CoSpread(init, p)
  {
    hide Times, Growth;
    var init, p := ps[..|ps| - 1], ps[|ps| - 1];
    SpreadIsGrowth(init, p);
    GrowthOfPair(|init| as real, SumX(init), SumX(init), SumXX(init), p.x, p.x);
    GrowthOfPair(|init| as real, SumX(init), SumY(init), SumXY(init), p.x, p.y);
  }

  lemma SumsOfNothing(ps: seq<Point>)
    requires |ps| == 0
    ensures Denominator(ps) == 0.0 && Numerator(ps) == 0.0
  {
  }

  // ------------------------------------------------------- the denominator

  ghost predicate SameX(ps: seq<Point>) {
    forall i, j :: 0 <= i < j < |ps| ==> ps[i].x == ps[j].x
  }

  lemma {:induction false} SpreadSign(ps: seq<Point>, p: Point)
    ensures Spread(ps, p) >= 0.0
    ensures Spread(ps, p) == 0.0 <==> forall i :: 0 <= i < |ps| ==> ps[i].x == p.x
  {
    hide Square;
    if |ps| == 0 {
    } else {
      SpreadSign(ps[..|ps| - 1], p);
      SquareSign(ps[|ps| - 1].x - p.x);
    }
  }

  /** The denominator is never negative, and is zero exactly when all times are equal. */
  lemma {:induction false} DenominatorSign(ps: seq<Point>)
    ensures Denominator(ps) >= 0.0
    ensures Denominator(ps) == 0.0 <==> SameX(ps)
  {
    hide Denominator, Numerator, Spread, CoSpread;
    if |ps| == 0 {
      SumsOfNothing(ps);
    } else {
      var init, p := ps[..|ps| - 1], ps[|ps| - 1];
      DenominatorSign(init);
      SumsGrowByPairs(ps);
      SpreadSign(init, p);
      if SameX(ps) {
        assert SameX(init);
      }
    }
  }

  lemma {:induction false} NumeratorOfSameX(ps: seq<Point>)
    requires SameX(ps)
    ensures Numerator(ps) == 0.0
  {
    hide Denominator, Numerator, Times;
    if |ps| == 0 {
      SumsOfNothing(ps);
    } else {
      var init, p := ps[..|ps| - 1], ps[|ps| - 1];
      NumeratorOfSameX(init);
      SumsGrowByPairs(ps);
      CoSpreadOfSameX(init, p);
    }
  }

  lemma {:induction false} CoSpreadOfSameX(ps: seq<Point>, p: Point)
    requires forall i :: 0 <= i < |ps| ==> ps[i].x == p.x
    ensures CoSpread(ps, p) == 0.0
  {
    hide Times;
    if |ps| == 0 {
    } else {
      CoSpreadOfSameX(ps[..|ps| - 1], p);
      TimesZero(ps[|ps| - 1].x - p.x, ps[|ps| - 1].y - p.y);
    }
  }

  // ------------------------------------------------------- optimality

  ghost function Residual(p: Point, m: real, b: real): real {
    p.y - Times(m, p.x) - b
  }

  /** Sum of squared residuals against the line y = m·x + b. */
  ghost function Error(ps: seq<Point>, m: real, b: real): real {
    if |ps| == 0 then 0.0
    else Error(ps[..|ps| - 1], m, b) + Square(Residual(ps[|ps| - 1], m, b))
  }

  /** Sum of (dm·x + db)²: how far apart two lines are at the sample times. */
  ghost function Gap(ps: seq<Point>, dm: real, db: real): real {
    if |ps| == 0 then 0.0
    else Gap(ps[..|ps| - 1], dm, db) + Square(Times(dm, ps[|ps| - 1].x) + db)
  }

  /** Sum of the residuals, and of the residuals weighted by time. */
  ghost function SumR(n: real, sx: real, sy: real, m: real, b: real): real {
    sy - Times(m, sx) - Times(n, b)
  }

  ghost function SumRX(sx: real, sxx: real, sxy: real, m: real, b: real): real {
    sxy - Times(m, sxx) - Times(b, sx)
  }

  /** The cross term between the residuals of one line and its distance to another. */
  ghost function Cross(ps: seq<Point>, m: real, b: real, dm: real, db: real): real {
    Times(dm, SumRX(SumX(ps), SumXX(ps), SumXY(ps), m, b))
      + Times(db, SumR(|ps| as real, SumX(ps), SumY(ps), m, b))
  }

  lemma MovedResidual(p: Point, m: real, b: real, dm: real, db: real)
    ensures Square(Residual(p, m - dm, b - db))
         == Square(Residual(p, m, b)) + 2.0 * Times(Residual(p, m, b), Times(dm, p.x) + db)
            + Square(Times(dm, p.x) + db)
  {
    var r, e := Residual(p, m, b), Times(dm, p.x) + db;
    assert Residual(p, m - dm, b - db) == r + e;
    SquareOfSum(r, e);
  }

  lemma SquareOfSum(r: real, e: real)
    ensures Square(r + e) == Square(r) + 2.0 * Times(r, e) + Square(e)
  {
  }

  lemma CrossOfSum(n: real, sx: real, sy: real, sxx: real, sxy: real, p: Point, m: real, b: real, dm: real, db: real)
    ensures Times(dm, SumRX(sx + p.x, sxx + Square(p.x), sxy + Times(p.x, p.y), m, b))
              + Times(db, SumR(n + 1.0, sx + p.x, sy + p.y, m, b))
         == Times(dm, SumRX(sx, sxx, sxy, m, b)) + Times(db, SumR(n, sx, sy, m, b))
              + Times(Residual(p, m, b), Times(dm, p.x) + db)
  {
    hide Times, Square, SumRX, SumR;
    var r := Residual(p, m, b);
    SumRXGrows(sx, sxx, sxy, p.x, p.y, m, b);
    SumRGrows(n, sx, sy, p.x, p.y, m, b);
    CrossGrows(dm, db, SumRX(sx, sxx, sxy, m, b), SumR(n, sx, sy, m, b), r, p.x);
  }

  lemma SumRXGrows(sx: real, sxx: real, sxy: real, x: real, y: real, m: real, b: real)
    ensures SumRX(sx + x, sxx + Square(x), sxy + Times(x, y), m, b)
         == SumRX(sx, sxx, sxy, m, b) + Times(y - Times(m, x) - b, x)
  {
    assert (y - m * x - b) * x == x * y - m * (x * x) - b * x;
  }

  lemma SumRGrows(n: real, sx: real, sy: real, x: real, y: real, m: real, b: real)
    ensures SumR(n + 1.0, sx + x, sy + y, m, b) == SumR(n, sx, sy, m, b) + (y - Times(m, x) - b)
  {
  }

  lemma CrossGrows(dm: real, db: real, a: real, c: real, r: real, x: real)
    ensures Times(dm, a + Times(r, x)) + Times(db, c + r)
         == Times(dm, a) + Times(db, c) + Times(r, Times(dm, x) + db)
  {
    assert r * (dm * x + db) == dm * (r * x) + db * r;
  }

  lemma CrossOfNothing(m: real, b: real, dm: real, db: real)
    ensures Cross([], m, b, dm, db) == 0.0
  {
  }

  lemma {:induction false} ErrorOfMovedLine(ps: seq<Point>, m: real, b: real, dm: real, db: real)
    ensures Error(ps, m - dm, b - db)
         == Error(ps, m, b) + 2.0 * Cross(ps, m, b, dm, db) + Gap(ps, dm, db)
  {
    if |ps| == 0 {
      CrossOfNothing(m, b, dm, db);
      assert ps == [];
    } else {
      hide Times, Residual, SumRX, SumR, Square;
      var init, p := ps[..|ps| - 1], ps[|ps| - 1];
      ErrorOfMovedLine(init, m, b, dm, db);
      MovedResidual(p, m, b, dm, db);
      CrossOfSum(|init| as real, SumX(init), SumY(init), SumXX(init), SumXY(init), p, m, b, dm, db);
    }
  }

  lemma {:induction false} GapSign(ps: seq<Point>, dm: real, db: real)
    ensures Gap(ps, dm, db) >= 0.0
    ensures Gap(ps, dm, db) == 0.0 <==> forall i :: 0 <= i < |ps| ==> Times(dm, ps[i].x) + db == 0.0
  {
    hide Square, Times;
    if |ps| == 0 {
    } else {
      GapSign(ps[..|ps| - 1], dm, db);
      SquareSign(Times(dm, ps[|ps| - 1].x) + db);
    }
  }

  /** The intercept that goes with the slope. */
  ghost function Intercept(ps: seq<Point>): real
    requires |ps| > 0
  {
    (SumY(ps) - Times(Slope(ps), SumX(ps))) / |ps| as real
  }

  lemma NormalEquations(n: real, sx: real, sy: real, sxx: real, sxy: real, m: real, b: real)
    requires n > 0.0 && Times(n, b) == sy - Times(m, sx)
    requires Times(m, Times(n, sxx) - Square(sx)) == Times(n, sxy) - Times(sx, sy)
    ensures SumR(n, sx, sy, m, b) == 0.0 && SumRX(sx, sxx, sxy, m, b) == 0.0
  {
    assert Times(n, SumRX(sx, sxx, sxy, m, b)) == 0.0 by {
      assert n * (sxy - m * sxx - b * sx) == n * sxy - m * (n * sxx) - (n * b) * sx;
      assert (sy - m * sx) * sx == sy * sx - m * (sx * sx);
    }
    CancelFactor(n, SumRX(sx, sxx, sxy, m, b));
  }

  lemma CancelFactor(n: real, r: real)
    requires n != 0.0 && Times(n, r) == 0.0
    ensures r == 0.0
  {
    hide Times;
    TimesNegate(n, r);
    if r != 0.0 {
      if (r > 0.0) == (n > 0.0) {
        TimesPositive(n, r);
      } else {
        TimesPositive(-n, r);
      }
    }
  }

  lemma DivideBack(n: real, d: real)
    requires d != 0.0
    ensures Times(n / d, d) == n && Times(d, n / d) == n
  {
  }

  lemma SlopeTimesDenominator(ps: seq<Point>)
    ensures Times(Slope(ps), Denominator(ps)) == Numerator(ps)
  {
    hide Times, Denominator, Numerator;
    DenominatorSign(ps);
    if Denominator(ps) == 0.0 {
      NumeratorOfSameX(ps);
      TimesZero(Slope(ps), Denominator(ps));
    } else {
      assert |ps| >= 2;
      DivideBack(Numerator(ps), Denominator(ps));
    }
  }

  /** Least squares: no line fits better than the one with this slope, and when two samples have
      different times no line with another slope fits as well. */
  lemma SlopeMinimisesError(ps: seq<Point>, m: real, b: real)
    requires |ps| > 0
    ensures Error(ps, Slope(ps), Intercept(ps)) <= Error(ps, m, b)
    ensures !SameX(ps) && m != Slope(ps) ==> Error(ps, Slope(ps), Intercept(ps)) < Error(ps, m, b)
  {
    var m0, b0 := Slope(ps), Intercept(ps);
    var dm, db := m0 - m, b0 - b;
    assert Cross(ps, m0, b0, dm, db) == 0.0 by {
      hide Times, Slope;
      SlopeTimesDenominator(ps);
      DivideBack(SumY(ps) - Times(m0, SumX(ps)), |ps| as real);
      NormalEquations(|ps| as real, SumX(ps), SumY(ps), SumXX(ps), SumXY(ps), m0, b0);
      TimesZero(dm, 0.0);
      TimesZero(db, 0.0);
    }
    hide Times, Slope, Intercept, Error, Gap, Cross;
    ErrorOfMovedLine(ps, m0, b0, dm, db);
    GapSign(ps, dm, db);
    if !SameX(ps) && Gap(ps, dm, db) == 0.0 {
      var i, j :| 0 <= i < j < |ps| && ps[i].x != ps[j].x;
      assert Times(dm, ps[i].x) + db == 0.0 == Times(dm, ps[j].x) + db;
      TimesDifference(dm, ps[i].x, ps[j].x);
      TimesNegate(dm, ps[i].x - ps[j].x);
      CancelFactor(ps[i].x - ps[j].x, dm);
    }
  }

  lemma TimesDifference(k: real, x: real, y: real)
    ensures Times(k, x - y) == Times(k, x) - Times(k, y)
  {
  }

  // ------------------------------------------------------- rates between neighbours

  /** Between neighbouring samples time does not run backwards and y grows at a rate of at least
      `lo`. */
  ghost predicate RatesAtLeast(ps: seq<Point>, lo: real) {
    forall i :: 0 <= i < |ps| - 1 ==> RateAtLeast(ps, i, lo)
  }

  ghost predicate RateAtLeast(ps: seq<Point>, i: nat, lo: real)
    requires i < |ps| - 1
  {
    && ps[i].x <= ps[i + 1].x
    && Times(lo, ps[i + 1].x - ps[i].x) <= ps[i + 1].y - ps[i].y
  }

  ghost predicate RatesAtMost(ps: seq<Point>, hi: real) {
    forall i :: 0 <= i < |ps| - 1 ==> RateAtMost(ps, i, hi)
  }

  ghost predicate RateAtMost(ps: seq<Point>, i: nat, hi: real)
    requires i < |ps| - 1
  {
    && ps[i].x <= ps[i + 1].x
    && ps[i + 1].y - ps[i].y <= Times(hi, ps[i + 1].x - ps[i].x)
  }

  lemma TimesOfSum(k: real, x: real, y: real)
    ensures Times(k, x + y) == Times(k, x) + Times(k, y)
  {
  }

  /** Rates between neighbours bound the rate between any two samples. */
  lemma {:induction false} RatesCompose(ps: seq<Point>, lo: real, i: nat, j: nat)
    requires RatesAtLeast(ps, lo) && i <= j < |ps|
    ensures ps[i].x <= ps[j].x && Times(lo, ps[j].x - ps[i].x) <= ps[j].y - ps[i].y
    decreases j
  {
    hide Times;
    if i == j {
      TimesZero(lo, 0.0);
    } else {
      RatesCompose(ps, lo, i, j - 1);
      assert RateAtLeast(ps, j - 1, lo);
      TimesOfSum(lo, ps[j - 1].x - ps[i].x, ps[j].x - ps[j - 1].x);
    }
  }

  /** (x - p.x)·(y - p.y) is at least lo·(x - p.x)². */
  lemma ProductOfRates(dx: real, dy: real, lo: real)
    requires dx >= 0.0 && Times(lo, dx) <= dy
    ensures Times(lo, Square(dx)) <= Times(-dx, -dy)
  {
    ProductMonotone(dx, Times(lo, dx), dy);
    assert dx * (lo * dx) == lo * (dx * dx);
    assert (-dx) * (-dy) == dx * dy;
  }

  lemma ProductMonotone(k: real, x: real, y: real)
    requires k >= 0.0 && x <= y
    ensures Times(k, x) <= Times(k, y)
  {
    hide Times;
    TimesDifference(k, y, x);
    if k == 0.0 || x == y {
      TimesZero(k, y - x);
    } else {
      TimesPositive(k, y - x);
    }
  }

  lemma {:induction false} CoSpreadOfRates(ps: seq<Point>, p: Point, lo: real)
    requires forall i :: 0 <= i < |ps| ==> ps[i].x <= p.x && Times(lo, p.x - ps[i].x) <= p.y - ps[i].y
    ensures Times(lo, Spread(ps, p)) <= CoSpread(ps, p)
  {
    hide Times, Square;
    if |ps| == 0 {
      TimesZero(lo, 0.0);
    } else {
      var init, q := ps[..|ps| - 1], ps[|ps| - 1];
      CoSpreadOfRates(init, p, lo);
      var dx, dy := p.x - q.x, p.y - q.y;
      ProductOfRates(dx, dy, lo);
      SquareOfNegation(dx);
      assert q.x - p.x == -dx && q.y - p.y == -dy;
      TimesOfSum(lo, Spread(init, p), Square(dx));
    }
  }

  lemma SquareOfNegation(x: real)
    ensures Square(-x) == Square(x)
  {
  }

  lemma {:induction false} NumeratorOfRates(ps: seq<Point>, lo: real)
    requires RatesAtLeast(ps, lo)
    ensures Times(lo, Denominator(ps)) <= Numerator(ps)
  {
    hide Times, Denominator, Numerator;
    if |ps| == 0 {
      SumsOfNothing(ps);
      TimesZero(lo, 0.0);
    } else {
      var init, p := ps[..|ps| - 1], ps[|ps| - 1];
      forall i | 0 <= i < |init| - 1
        ensures RateAtLeast(init, i, lo)
      {
        assert RateAtLeast(ps, i, lo);
      }
      NumeratorOfRates(init, lo);
      forall i | 0 <= i < |init| {
        RatesCompose(ps, lo, i, |ps| - 1);
      }
      CoSpreadOfRates(init, p, lo);
      SumsGrowByPairs(ps);
      TimesOfSum(lo, Denominator(init), Spread(init, p));
    }
  }

  /** The fitted slope keeps any lower bound that holds between neighbouring samples. */
  lemma SlopeAtLeast(ps: seq<Point>, lo: real)
    requires RatesAtLeast(ps, lo) && !SameX(ps)
    ensures Slope(ps) >= lo
  {
    hide Times, Denominator, Numerator, Slope;
    NumeratorOfRates(ps, lo);
    DenominatorSign(ps);
    SlopeTimesDenominator(ps);
    var d, m := Denominator(ps), Slope(ps);
    if m < lo {
      TimesPositive(lo - m, d);
      TimesNegate(lo - m, d);
      TimesDifference(d, lo, m);
      TimesNegate(lo, d);
      TimesNegate(m, d);
    }
  }

  /** And any upper bound. */
  lemma SlopeAtMost(ps: seq<Point>, hi: real)
    requires RatesAtMost(ps, hi) && !SameX(ps)
    ensures Slope(ps) <= hi
  {
    hide Slope, Times, RatesAtLeast, RatesAtMost, Affine, SameX;
    FlippedRates(ps, hi);
    SlopeAtLeast(Affine(ps, 0.0, -1.0), -hi);
    SlopeOfAffine(ps, 0.0, -1.0);
    NegationIsTimes(Slope(ps));
  }

  lemma FlippedRates(ps: seq<Point>, hi: real)
    requires RatesAtMost(ps, hi) && !SameX(ps)
    ensures RatesAtLeast(Affine(ps, 0.0, -1.0), -hi) && !SameX(Affine(ps, 0.0, -1.0))
  {
    hide Times;
    var flipped, lo := Affine(ps, 0.0, -1.0), -hi;
    forall i | 0 <= i < |flipped| - 1
      ensures RateAtLeast(flipped, i, lo)
    {
      assert RateAtMost(ps, i, hi);
      NegationIsTimes(ps[i].y);
      NegationIsTimes(ps[i + 1].y);
      TimesNegate(hi, ps[i + 1].x - ps[i].x);
    }
    var i, j :| 0 <= i < j < |ps| && ps[i].x != ps[j].x;
    assert flipped[i].x != flipped[j].x;
  }

  lemma NegationIsTimes(y: real)
    ensures Times(-1.0, y) == -y
  {
  }

  /** Without two distinct times the slope is 0. */
  lemma SlopeOfSameX(ps: seq<Point>)
    requires SameX(ps)
    ensures Slope(ps) == 0.0
  {
    hide Denominator;
    DenominatorSign(ps);
  }

  // ------------------------------------------------------- exactness and shifts

  /** Points on one line, in any order, with two distinct times: the exact slope comes back. */
  lemma CollinearSlope(ps: seq<Point>, m: real, b: real)
    requires !SameX(ps) && forall i :: 0 <= i < |ps| ==> ps[i].y == Times(m, ps[i].x) + b
    ensures Slope(ps) == m
  {
    assert |ps| > 0;
    hide Times, Slope, Intercept, Residual;
    ErrorOnLine(ps, m, b);
    ErrorSign(ps, Slope(ps), Intercept(ps));
    SlopeMinimisesError(ps, m, b);
  }

  lemma {:induction false} ErrorSign(ps: seq<Point>, m: real, b: real)
    ensures Error(ps, m, b) >= 0.0
  {
    hide Square, Residual;
    if |ps| == 0 {
    } else {
      ErrorSign(ps[..|ps| - 1], m, b);
      SquareSign(Residual(ps[|ps| - 1], m, b));
    }
  }

  lemma {:induction false} ErrorOnLine(ps: seq<Point>, m: real, b: real)
    requires forall i :: 0 <= i < |ps| ==> ps[i].y == Times(m, ps[i].x) + b
    ensures Error(ps, m, b) == 0.0
  {
    hide Times;
    if |ps| == 0 {
    } else {
      ErrorOnLine(ps[..|ps| - 1], m, b);
      SquareSign(0.0);
    }
  }

  /** All times moved by `dx` and all values scaled by `k`. */
  function Affine(ps: seq<Point>, dx: real, k: real): seq<Point> {
    seq(|ps|, i requires 0 <= i < |ps| => Point(ps[i].x + dx, Times(k, ps[i].y)))
  }

  lemma ScaledProduct(x: real, k: real, u: real, v: real)
    ensures Times(x, Times(k, u) - Times(k, v)) == Times(k, Times(x, u - v))
  {
  }

  lemma {:induction false} SpreadOfAffine(ps: seq<Point>, p: Point, dx: real, k: real)
    ensures Spread(Affine(ps, dx, k), Point(p.x + dx, Times(k, p.y))) == Spread(ps, p)
    ensures CoSpread(Affine(ps, dx, k), Point(p.x + dx, Times(k, p.y))) == Times(k, CoSpread(ps, p))
  {
    hide Square, Times;
    if |ps| == 0 {
      TimesZero(k, 0.0);
    } else {
      var init, q := ps[..|ps| - 1], ps[|ps| - 1];
      SpreadOfAffine(init, p, dx, k);
      assert Affine(ps, dx, k)[..|ps| - 1] == Affine(init, dx, k);
      assert (q.x + dx) - (p.x + dx) == q.x - p.x;
      ScaledProduct(q.x - p.x, k, q.y, p.y);
      TimesOfSum(k, CoSpread(init, p), Times(q.x - p.x, q.y - p.y));
    }
  }

  lemma {:induction false} SumsOfAffine(ps: seq<Point>, dx: real, k: real)
    ensures Denominator(Affine(ps, dx, k)) == Denominator(ps)
    ensures Numerator(Affine(ps, dx, k)) == Times(k, Numerator(ps))
  {
    hide Denominator, Numerator, Times;
    var moved := Affine(ps, dx, k);
    if |ps| == 0 {
      SumsOfNothing(ps);
      SumsOfNothing(moved);
      TimesZero(k, 0.0);
    } else {
      var init, p := ps[..|ps| - 1], ps[|ps| - 1];
      SumsOfAffine(init, dx, k);
      assert moved[..|ps| - 1] == Affine(init, dx, k);
      SpreadOfAffine(init, p, dx, k);
      SumsGrowByPairs(ps);
      SumsGrowByPairs(moved);
      TimesOfSum(k, Numerator(init), CoSpread(init, p));
    }
  }

  lemma ScaledQuotient(k: real, n: real, d: real)
    requires d != 0.0
    ensures Times(k, n) / d == Times(k, n / d)
  {
  }

  /** When the clock started does not matter, and a change of unit scales the slope. */
  lemma SlopeOfAffine(ps: seq<Point>, dx: real, k: real)
    ensures Slope(Affine(ps, dx, k)) == Times(k, Slope(ps))
  {
    hide Denominator, Numerator, Times;
    SumsOfAffine(ps, dx, k);
    if |ps| < 2 || Denominator(ps) == 0.0 {
      TimesZero(k, 0.0);
    } else {
      ScaledQuotient(k, Numerator(ps), Denominator(ps));
    }
  }
}
