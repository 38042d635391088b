/** The integer line walk of the raster oracle (`line` in graphics_raster_bench_decode.py and
    graphics_shared_bench.py), and the closed form it computes. */
module Bresenham {

  datatype Point = Point(x: int, y: int)

  function Abs(a: int): nat { if a < 0 then -a else a }

  function Max(a: nat, b: nat): nat { if a < b then b else a }

  /** `1 if a < b else -1`. */
  function Toward(a: int, b: int): int { if a < b then 1 else -1 }

  /** Steps taken along an axis of extent c after k of m moves: k*c/m rounded half up. */
  function Rounded(k: nat, c: nat, m: nat): (r: nat)
    requires c <= m
  {
    if m == 0 then 0 else (2 * k * c + m) / (2 * m)
  }

  /** The k-th point of the line. */
  function LinePoint(x: int, y: int, xx: int, yy: int, k: nat): Point {
    var a, b := Abs(xx - x), Abs(yy - y);
    Point(x + Toward(x, xx) * Rounded(k, a, Max(a, b)), y + Toward(y, yy) * Rounded(k, b, Max(a, b)))
  }

  function Moves(x: int, y: int, xx: int, yy: int): nat {
    Max(Abs(xx - x), Abs(yy - y))
  }

  // ----- rounding, characterised by its error

  lemma Ordered(x: int, y: int, d: nat)
    requires x <= y
    ensures x * d <= y * d
  {
  }

  /** A quotient is the one number with its remainder in range. */
  lemma QuotientIs(t: nat, d: nat, r: int)
    requires d > 0
    ensures r == t / d <==> r * d <= t < r * d + d
  {
    var q := t / d;
    assert t == q * d + t % d;
    if r > q { Ordered(q + 1, r, d); }
    if r < q { Ordered(r + 1, q, d); }
  }

  /** r is k*c/m rounded half up exactly when the doubled error lies in (-m, m]. */
  lemma RoundedIs(k: nat, c: nat, m: nat, r: int)
    requires c <= m && m > 0
    ensures r == Rounded(k, c, m) <==> 0 < 2 * (r * m - k * c) + m && 2 * (r * m - k * c) <= m
  {
    QuotientIs(2 * k * c + m, 2 * m, r);
    assert r * (2 * m) == 2 * (r * m) && 2 * k * c == 2 * (k * c);
  }

  lemma RoundedEnds(c: nat, m: nat)
    requires c <= m
    ensures Rounded(0, c, m) == 0 && Rounded(m, c, m) == c
  {
    if m > 0 {
      RoundedIs(0, c, m, 0);
      RoundedIs(m, c, m, c);
      assert c * m == m * c;
    }
  }

  /** Along the longer axis every move is one step. */
  lemma RoundedFull(k: nat, m: nat)
    requires m > 0
    ensures Rounded(k, m, m) == k
  {
    RoundedIs(k, m, m, k);
  }

  lemma RoundedStep(k: nat, c: nat, m: nat)
    requires c <= m
    ensures Rounded(k, c, m) <= Rounded(k + 1, c, m) <= Rounded(k, c, m) + 1
  {
    if m > 0 {
      hide Rounded;
      var r := Rounded(k, c, m);
      RoundedIs(k, c, m, r);
      RoundedIs(k + 1, c, m, r);
      RoundedIs(k + 1, c, m, r + 1);
      assert (k + 1) * c == k * c + c && (r + 1) * m == r * m + m;
    }
  }

  // ----- the two tests of the loop decide the rounding

  /** The error register after i steps along x and j along y. */
  function ErrorAt(a: nat, b: nat, i: nat, j: nat): int {
    (j + 1) * a - (i + 1) * b
  }

  /** In the state after k moves the test on the x side fires exactly when x steps next, and the
      test on the y side exactly when y steps next. */
  lemma TestsDecide(a: nat, b: nat, k: nat)
    requires k < Max(a, b)
    ensures var m := Max(a, b); var i, j := Rounded(k, a, m), Rounded(k, b, m);
      && (2 * ErrorAt(a, b, i, j) + b >= 0 <==> Rounded(k + 1, a, m) == i + 1)
      && (2 * ErrorAt(a, b, i, j) <= a <==> Rounded(k + 1, b, m) == j + 1)
  {
    hide Rounded;
    var m := Max(a, b);
    var i, j := Rounded(k, a, m), Rounded(k, b, m);
    if b <= a {
      RoundedFull(k, m);
      RoundedFull(k + 1, m);
      MinorTest(k, b, a, j);
    } else {
      RoundedFull(k, m);
      RoundedFull(k + 1, m);
      MinorTest(k, a, b, i);
    }
  }

  /** The shorter axis, of extent c, steps next exactly when its doubled error allows it. */
  lemma MinorTest(k: nat, c: nat, m: nat, r: nat)
    requires c <= m && m > 0 && r == Rounded(k, c, m)
    ensures var e := r * m - k * c;
      && 0 < 2 * e + m && 2 * e <= m
      && (Rounded(k + 1, c, m) == r + 1 <==> 2 * (e - c) + m <= 0)
      && (r + 1) * m == r * m + m && (k + 1) * c == k * c + c
  {
    hide Rounded;
    RoundedIs(k, c, m, r);
    RoundedIs(k + 1, c, m, r + 1);
    assert (r + 1) * m == r * m + m && (k + 1) * c == k * c + c;
  }

  // ----- the line as a whole

  lemma TowardArrives(a: int, b: int)
    ensures a + Toward(a, b) * Abs(b - a) == b
  {
  }

  lemma LineEnds(x: int, y: int, xx: int, yy: int)
    ensures LinePoint(x, y, xx, yy, 0) == Point(x, y)
    ensures LinePoint(x, y, xx, yy, Moves(x, y, xx, yy)) == Point(xx, yy)
  {
    hide Rounded, Toward;
    var a, b := Abs(xx - x), Abs(yy - y);
    RoundedEnds(a, Max(a, b));
    RoundedEnds(b, Max(a, b));
    TowardArrives(x, xx);
    TowardArrives(y, yy);
  }

  /** The end point is not met before the last move, so the loop makes exactly that many. */
  lemma NotEarly(x: int, y: int, xx: int, yy: int, k: nat)
    requires k < Moves(x, y, xx, yy)
    ensures LinePoint(x, y, xx, yy, k) != Point(xx, yy)
  {
    hide Rounded;
    var a, b := Abs(xx - x), Abs(yy - y);
    RoundedFull(k, Max(a, b));
  }

  /** Consecutive points are eight-neighbours and never equal. */
  lemma LineSteps(x: int, y: int, xx: int, yy: int, k: nat)
    requires k < Moves(x, y, xx, yy)
    ensures var p, q := LinePoint(x, y, xx, yy, k), LinePoint(x, y, xx, yy, k + 1);
      Abs(q.x - p.x) <= 1 && Abs(q.y - p.y) <= 1 && p != q
  {
    hide Rounded;
    var a, b := Abs(xx - x), Abs(yy - y);
    var m := Max(a, b);
    RoundedStep(k, a, m);
    RoundedStep(k, b, m);
    RoundedFull(k, m);
    RoundedFull(k + 1, m);
  }

  /** No point is more than half a pixel from the ideal line, measured along the shorter axis: after
      i steps in x and j in y the cross product j*|dx| - i*|dy| is at most half the longer extent. */
  lemma HalfPixel(x: int, y: int, xx: int, yy: int, k: nat)
    requires k <= Moves(x, y, xx, yy)
    ensures var p, a, b := LinePoint(x, y, xx, yy, k), Abs(xx - x), Abs(yy - y);
      2 * Abs(Abs(p.y - y) * a - Abs(p.x - x) * b) <= Max(a, b)
  {
    hide Rounded;
    var p, a, b := LinePoint(x, y, xx, yy, k), Abs(xx - x), Abs(yy - y);
    var m := Max(a, b);
    var i, j := Rounded(k, a, m), Rounded(k, b, m);
    assert Abs(p.x - x) == i && Abs(p.y - y) == j;
    if m > 0 {
      RoundedFull(k, m);
      RoundedIs(k, a, m, i);
      RoundedIs(k, b, m, j);
    }
  }
}
