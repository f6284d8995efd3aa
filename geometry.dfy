/** Plane geometry shared by neurons and axons, over the reals.

    The script measures distances with `Math.hypot`. Where a distance is only
    compared with a radius, the model compares squared lengths instead (lemma
    HypotBelow shows the two tests agree). Where the length itself is used
    (normalising a vector, clamping a speed, the mouse influence falloff), the
    square root is a parameter `root` that satisfies IsSqrt. */
module Geometry {

  /** A point or a displacement in canvas coordinates. */
  datatype Vec = Vec(x: real, y: real)
  {
    function Plus(o: Vec): Vec { Vec(x + o.x, y + o.y) }
    function Minus(o: Vec): Vec { Vec(x - o.x, y - o.y) }
  }

  function Sq(a: real): real { a * a }

  function SqLen(v: Vec): real { Sq(v.x) + Sq(v.y) }

  function SqDist(p: Vec, q: Vec): real { SqLen(p.Minus(q)) }

  function Min(a: real, b: real): real { if a <= b then a else b }

  function Max(a: real, b: real): real { if a >= b then a else b }

  /** `root` returns the non-negative square root of every non-negative real. */
  ghost predicate IsSqrt(root: real -> real)
  {
    forall d :: 0.0 <= d ==> 0.0 <= root(d) && Sq(root(d)) == d
  }

  /** A value `Math.random()` can return. */
  predicate Unit(u: real) { 0.0 <= u < 1.0 }

  /** `(Math.random() - 0.5) * width`: a draw spread over [-width/2, width/2]. */
  function Spread(u: real, width: real): (r: real)
    requires Unit(u) && 0.0 <= width
    ensures -width / 2.0 <= r <= width / 2.0
  {
    MulMono(-0.5, u - 0.5, width);
    MulMono(u - 0.5, 0.5, width);
    (u - 0.5) * width
  }

  /** `Math.hypot(..) < r` is the same test as comparing the squared length
      with r*r, for a radius r >= 0. */
  lemma HypotBelow(root: real -> real, d2: real, r: real)
    requires IsSqrt(root) && 0.0 <= d2 && 0.0 <= r
    ensures root(d2) < r <==> d2 < Sq(r)
  {
    if root(d2) < r {
      SqLess(root(d2), r);
    } else {
      SqLe(r, root(d2));
    }
  }

  /** `Math.hypot(..) <= r` is the same test as d2 <= r*r; so `hypot > r`
      is d2 > r*r. */
  lemma HypotAtMost(root: real -> real, d2: real, r: real)
    requires IsSqrt(root) && 0.0 <= d2 && 0.0 <= r
    ensures root(d2) <= r <==> d2 <= Sq(r)
  {
    if root(d2) <= r {
      SqLe(root(d2), r);
    } else {
      SqLess(r, root(d2));
    }
  }

  /** A squared length never is negative. */
  lemma SqLenNonneg(v: Vec)
    ensures 0.0 <= SqLen(v)
  {
    SqNonneg(v.x);
    SqNonneg(v.y);
  }

  /** Both coordinates of a vector lie within its length bound. */
  lemma SqLenBoundsCoordinates(v: Vec, b: real)
    requires 0.0 <= b && SqLen(v) <= Sq(b)
    ensures -b <= v.x <= b && -b <= v.y <= b
  {
    SqNonneg(v.x);
    SqNonneg(v.y);
    SqBound(v.x, b);
    SqBound(v.y, b);
  }

  /** `(x / m) * s` on each coordinate: with m the length of v, the vector
      of v's direction and length s. */
  function Scaled(v: Vec, m: real, s: real): Vec
    requires m != 0.0
  {
    Vec(v.x / m * s, v.y / m * s)
  }

  /** Scaling a vector by its own length m to s gives length s. */
  lemma ScaledLength(v: Vec, m: real, s: real)
    requires 0.0 < m && Sq(m) == SqLen(v)
    ensures SqLen(Scaled(v, m, s)) == Sq(s)
  {
    DivSwap(v.x, m, s);
    DivSwap(v.y, m, s);
    calc {
      Sq(v.x / m * s) + Sq(v.y / m * s);
      Sq(v.x * (s / m)) + Sq(v.y * (s / m));
      { SqScale(v.x, v.y, s / m); }
      (Sq(v.x) + Sq(v.y)) * Sq(s / m);
      Sq(m) * Sq(s / m);
      { SqMul(m, s / m); }
      Sq(m * (s / m));
      { DivCancel(m, s); }
      Sq(s);
    }
  }

  /** `r` points the same way as `v`: parallel (zero cross product) and not
      opposite (positive dot product), so a positive multiple of `v`. */
  predicate Along(r: Vec, v: Vec)
  {
    r.x * v.y == r.y * v.x && 0.0 < r.x * v.x + r.y * v.y
  }

  /** Scaling a non-zero vector by a positive factor keeps its direction. */
  lemma ScaledAlong(v: Vec, m: real, s: real)
    requires 0.0 < m && 0.0 < s && 0.0 < SqLen(v)
    ensures Along(Scaled(v, m, s), v)
  {
    var k := s / m;
    DivSwap(v.x, m, s);
    DivSwap(v.y, m, s);
    assert k > 0.0;
    var r := Scaled(v, m, s);
    assert r == Vec(v.x * k, v.y * k);
    assert r.x * v.y == k * (v.x * v.y) == r.y * v.x;
    assert r.x * v.x + r.y * v.y == k * SqLen(v);
    MulPos(k, SqLen(v));
  }

  /** The root of d is zero exactly when d is. */
  lemma RootZero(root: real -> real, d: real)
    requires IsSqrt(root) && 0.0 <= d
    ensures root(d) == 0.0 <==> d == 0.0
  {
    if root(d) != 0.0 {
      SqPos(root(d));
    }
  }

  /** A vector of squared length zero is the zero vector. */
  lemma ZeroLength(v: Vec)
    requires SqLen(v) == 0.0
    ensures v == Vec(0.0, 0.0)
  {
    SqNonneg(v.x);
    SqNonneg(v.y);
    if v.x != 0.0 {
      SqPos(v.x);
    } else if v.y != 0.0 {
      SqPos(v.y);
    }
  }

  // Small facts of real arithmetic. Each is kept to one step: the solver
  // proves them alone but not inside a larger context.

  lemma MulNonneg(a: real, b: real)
    requires 0.0 <= a && 0.0 <= b
    ensures 0.0 <= a * b
  {
  }

  lemma MulPos(a: real, b: real)
    requires 0.0 < a && 0.0 < b
    ensures 0.0 < a * b
  {
  }

  lemma MulMono(a: real, b: real, c: real)
    requires 0.0 <= c && a <= b
    ensures a * c <= b * c
  {
    MulNonneg(b - a, c);
    assert (b - a) * c == b * c - a * c;
  }

  lemma SqNonneg(a: real)
    ensures 0.0 <= Sq(a)
  {
    if a < 0.0 {
      MulPos(-a, -a);
      assert (-a) * (-a) == a * a;
    } else {
      MulNonneg(a, a);
    }
  }

  lemma SqLess(s: real, r: real)
    requires 0.0 <= s < r
    ensures Sq(s) < Sq(r)
  {
    MulNonneg(s, r - s);
    MulPos(r, r - s);
    assert Sq(r) - Sq(s) == s * (r - s) + r * (r - s);
  }

  lemma SqLe(s: real, r: real)
    requires 0.0 <= s <= r
    ensures Sq(s) <= Sq(r)
  {
    if s < r {
      SqLess(s, r);
    }
  }

  lemma SqPos(m: real)
    requires m != 0.0
    ensures 0.0 < Sq(m)
  {
    if m < 0.0 {
      SqLess(0.0, -m);
      assert Sq(-m) == Sq(m);
    } else {
      SqLess(0.0, m);
    }
  }

  lemma SqWithin(a: real, b: real)
    requires -b <= a <= b
    ensures Sq(a) <= Sq(b)
  {
    if a < 0.0 {
      SqLe(-a, b);
      assert Sq(-a) == Sq(a);
    } else {
      SqLe(a, b);
    }
  }

  lemma SqNeg(a: real)
    ensures Sq(-a) == Sq(a)
  {
  }

  lemma SqBound(u: real, b: real)
    requires 0.0 <= b && Sq(u) <= Sq(b)
    ensures -b <= u <= b
  {
    if u > b {
      SqLess(b, u);
    } else if u < -b {
      SqLess(b, -u);
    }
  }

  lemma SqScale(a: real, b: real, k: real)
    ensures Sq(a * k) + Sq(b * k) == (Sq(a) + Sq(b)) * Sq(k)
  {
  }

  lemma SqMul(a: real, b: real)
    ensures Sq(a) * Sq(b) == Sq(a * b)
  {
  }

  lemma DivSwap(x: real, m: real, s: real)
    requires m != 0.0
    ensures x / m * s == x * (s / m)
  {
  }

  lemma DivCancel(m: real, s: real)
    requires m != 0.0
    ensures m * (s / m) == s
  {
  }
}
