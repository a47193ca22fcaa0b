/** Pixel-space geometry shared by the lane search and the tracker. */
module Geometry {

  /** A point of the top-down image: column x, row y. */
  datatype Point = Point(x: real, y: real)

  /** The coefficients [a, b, c] of the quadratic x = a*y^2 + b*y + c, highest power first, as the
      three-element array np.polyfit returns. */
  type Poly = s: seq<real> | |s| == 3 witness [0.0, 0.0, 0.0]

  function Eval(q: Poly, y: real): real
  {
    q[0] * y * y + q[1] * y + q[2]
  }

  /** The element-wise evaluation `a * ys**2 + b * ys + c` of a numpy array. */
  function EvalAll(q: Poly, ys: seq<real>): seq<real>
  {
    seq(|ys|, i requires 0 <= i < |ys| => Eval(q, ys[i]))
  }

  function Pow(b: real, n: nat): real
  {
    if n == 0 then 1.0 else b * Pow(b, n - 1)
  }

  /** For a base strictly between 0 and 1, every positive power lies strictly between 0 and 1
      and each further power is strictly smaller than the last. */
  lemma {:induction false} PowInUnit(b: real, n: nat)
    requires 0.0 < b < 1.0 && n >= 1
    ensures 0.0 < Pow(b, n) < 1.0
    ensures Pow(b, n + 1) < Pow(b, n)
  {
    if n > 1 {
      PowInUnit(b, n - 1);
      assert Pow(b, n) == b * Pow(b, n - 1);
    }
    assert Pow(b, n + 1) == b * Pow(b, n);
  }

  /** The convex combination a*old + (1-a)*new used to smooth an estimate. */
  function Lerp(a: real, prev: real, next: real): real
  {
    a * prev + (1.0 - a) * next
  }

  predicate Between(v: real, u: real, w: real)
  {
    (u <= v <= w) || (w <= v <= u)
  }

  lemma LerpBetween(a: real, prev: real, next: real)
    requires 0.0 < a < 1.0
    ensures Between(Lerp(a, prev, next), prev, next)
    ensures prev != next ==> Lerp(a, prev, next) != prev && Lerp(a, prev, next) != next
  {
    var d := prev - next;
    var ad := a * d;
    assert Lerp(a, prev, next) == next + ad;
    if d > 0.0 {
      assert d - ad == (1.0 - a) * d;
      assert (1.0 - a) * d > 0.0;
      assert 0.0 < ad < d;
      assert next < Lerp(a, prev, next) < prev;
    } else if d < 0.0 {
      var e := next - prev;
      var b := 1.0 - a;
      assert b > 0.0 && e > 0.0;
      var be := b * e;
      assert be > 0.0;
      assert Lerp(a, prev, next) == prev + be;
      assert e - be == a * e;
      assert a * e > 0.0;
      assert 0.0 < be < e;
      assert prev < Lerp(a, prev, next) < next;
    }
  }

  function BlendPoint(a: real, prev: Point, next: Point): Point
  {
    Point(Lerp(a, prev.x, next.x), Lerp(a, prev.y, next.y))
  }

  /** `a * old + (1 - a) * new` over two point arrays of the same shape. */
  function BlendPoints(a: real, prev: seq<Point>, next: seq<Point>): (r: seq<Point>)
    requires |prev| == |next|
    ensures |r| == |next|
  {
    seq(|next|, i requires 0 <= i < |next| => BlendPoint(a, prev[i], next[i]))
  }

  /** `a * old + (1 - a) * new` over two coefficient arrays. */
  function BlendPoly(a: real, prev: Poly, next: Poly): Poly
  {
    seq(3, i requires 0 <= i < 3 => Lerp(a, prev[i], next[i]))
  }

  /** Pairs xs[i] with ys[i]: `np.transpose(np.vstack([xs, ys]))`. */
  function Zip(xs: seq<real>, ys: seq<real>): (ps: seq<Point>)
    requires |xs| == |ys|
    ensures |ps| == |xs|
  {
    seq(|xs|, i requires 0 <= i < |xs| => Point(xs[i], ys[i]))
  }

  /** `np.flipud`: the rows in the opposite order. */
  function Reverse(s: seq<Point>): (r: seq<Point>)
    ensures |r| == |s|
    ensures forall i {:trigger r[i]} :: 0 <= i < |s| ==> r[i] == s[|s| - 1 - i]
    decreases |s|
  {
    if s == [] then [] else Reverse(s[1..]) + [s[0]]
  }
}
