/** The real-valued position of geometry/Pos.java, used for candidate spots and
    sub-pixel centroids (doubles are modelled as exact reals). */
module RealPos {

  function Abs(a: real): real
  {
    if a < 0.0 then -a else a
  }

  /** A position as a value: `equals` compares x and y. */
  datatype Pos = Pos(x: real, y: real)
  {
    /** `getSQDist`: the squared Euclidean distance. */
    function SQDist(other: Pos): (d: real)
      ensures d >= 0.0
      ensures this == other ==> d == 0.0
    {
      var dx, dy := other.x - x, other.y - y;
      Square(dx);
      Square(dy);
      dx * dx + dy * dy
    }

    /** `getManhattenDist`: the sum of the coordinate distances. */
    function ManhattanDist(other: Pos): (d: real)
      ensures d >= 0.0
      ensures d == 0.0 <==> this == other
    {
      Abs(other.x - x) + Abs(other.y - y)
    }

    /** `getSQDistFromLine`: the squared distance from this point to the line
        through `p1` and `p2`, or to `p1` when the two coincide. The denominator
        (x2-x1)^2 + (y2-y1)^2 is the squared distance from p1 to p2. */
    function SQDistFromLine(p1: Pos, p2: Pos): (r: real)
      ensures r >= 0.0
      ensures p1.SQDist(p2) == 0.0 ==> r == SQDist(p1)
    {
      var numerator := Cross(p1, p2, this);
      var denominatorSQ := p1.SQDist(p2);
      if denominatorSQ == 0.0 then SQDist(p1) else numerator * numerator / denominatorSQ
    }

    /** `equals`: holds exactly for the same value. */
    predicate Equals(other: Pos): (r: bool)
      ensures r <==> this == other
    {
      x == other.x && y == other.y
    }

    /** The component-wise sum that `add` stores into the receiver. */
    function Plus(other: Pos): Pos
    {
      Pos(x + other.x, y + other.y)
    }
  }

  /** The numerator of getSQDistFromLine: (x2-x1)(y1-y0) - (x1-x0)(y2-y1). */
  function Cross(p1: Pos, p2: Pos, p0: Pos): real
  {
    (p2.x - p1.x) * (p1.y - p0.y) - (p1.x - p0.x) * (p2.y - p1.y)
  }

  lemma Square(d: real)
    ensures d * d >= 0.0
  {
    if d < 0.0 {
      assert d * d == (-d) * (-d);
    }
  }

  lemma DivNonNegative(a: real, d: real)
    requires a >= 0.0 && d > 0.0
    ensures a / d >= 0.0
  {
  }

  lemma DivAtMost(a: real, d: real, s: real)
    requires d > 0.0 && a <= d * s
    ensures a / d <= s
  {
    assert a / d - s == (a - d * s) / d;
  }

  /** Both distances are symmetric. */
  lemma DistSymmetric(a: Pos, b: Pos)
    ensures a.SQDist(b) == b.SQDist(a)
    ensures a.ManhattanDist(b) == b.ManhattanDist(a)
  {
    assert (b.x - a.x) * (b.x - a.x) == (a.x - b.x) * (a.x - b.x);
    assert (b.y - a.y) * (b.y - a.y) == (a.y - b.y) * (a.y - b.y);
  }

  /** With coinciding line points the line distance is the squared distance to that point. */
  lemma LineDegenerate(p: Pos, q: Pos)
    ensures p.SQDistFromLine(q, q) == p.SQDist(q)
  {
  }

  /** The squared line distance is never negative. */
  lemma {:induction false} LineDistNonNegative(p: Pos, p1: Pos, p2: Pos)
    ensures p.SQDistFromLine(p1, p2) >= 0.0
  {
    var n := Cross(p1, p2, p);
    var dx, dy := p2.x - p1.x, p2.y - p1.y;
    Square(dx);
    Square(dy);
    Square(n);
    var d := dx * dx + dy * dy;
    if d != 0.0 {
      DivNonNegative(n * n, d);
    }
  }

  /** Every point of the line through p1 and p2, in particular p1 and p2 themselves,
      has line distance 0. */
  lemma {:induction false} PointOnLine(p1: Pos, p2: Pos, k: real)
    ensures var p := Pos(p1.x + k * (p2.x - p1.x), p1.y + k * (p2.y - p1.y));
            p.SQDistFromLine(p1, p2) == 0.0
  {
    var p := Pos(p1.x + k * (p2.x - p1.x), p1.y + k * (p2.y - p1.y));
    var dx, dy := p2.x - p1.x, p2.y - p1.y;
    assert Cross(p1, p2, p) == dx * (-k * dy) - (-k * dx) * dy;
    assert Cross(p1, p2, p) == 0.0;
    assert p.SQDist(p1) == k * k * (dx * dx + dy * dy);
  }

  /** The two points that define the line lie on it. */
  lemma {:induction false} EndpointsOnLine(p1: Pos, p2: Pos)
    ensures p1.SQDistFromLine(p1, p2) == 0.0
    ensures p2.SQDistFromLine(p1, p2) == 0.0
  {
    PointOnLine(p1, p2, 0.0);
    assert Pos(p1.x + 0.0 * (p2.x - p1.x), p1.y + 0.0 * (p2.y - p1.y)) == p1;
    PointOnLine(p1, p2, 1.0);
    assert Pos(p1.x + 1.0 * (p2.x - p1.x), p1.y + 1.0 * (p2.y - p1.y)) == p2;
  }

  /** Swapping the two line points does not change the line distance. The degenerate
      branch must be taken only when the points coincide (with exact reals a zero
      squared length forces that; the hypothesis states it). */
  lemma {:induction false} LineSwap(p: Pos, p1: Pos, p2: Pos)
    requires p1 == p2 || p1.SQDist(p2) != 0.0
    ensures p.SQDistFromLine(p1, p2) == p.SQDistFromLine(p2, p1)
  {
    var dx, dy := p2.x - p1.x, p2.y - p1.y;
    assert Cross(p2, p1, p) == -Cross(p1, p2, p) by {
      assert Cross(p1, p2, p) == dx * (p1.y - p.y) - (p1.x - p.x) * dy;
      assert Cross(p2, p1, p) == (-dx) * (p2.y - p.y) - (p2.x - p.x) * (-dy);
      assert p2.y - p.y == (p1.y - p.y) + dy;
      assert p2.x - p.x == (p1.x - p.x) + dx;
    }
    DistSymmetric(p1, p2);
  }

  /** The distance to the line is at most the distance to either line point. */
  lemma {:induction false} LineDistAtMostPointDist(p: Pos, p1: Pos, p2: Pos)
    ensures p.SQDistFromLine(p1, p2) <= p.SQDist(p1)
  {
    var n, d := Cross(p1, p2, p), p1.SQDist(p2);
    if d != 0.0 {
      assert p.SQDistFromLine(p1, p2) == n * n / d;
      hide *;
      CrossAtMost(p, p1, p2);
      DivAtMost(n * n, d, p.SQDist(p1));
    }
  }

  /** The squared cross product is at most the product of the squared lengths. */
  lemma {:induction false} CrossAtMost(p: Pos, p1: Pos, p2: Pos)
    ensures Cross(p1, p2, p) * Cross(p1, p2, p) <= p1.SQDist(p2) * p.SQDist(p1)
  {
    LagrangeBound(p2.x - p1.x, p1.y - p.y, p1.x - p.x, p2.y - p1.y);
  }

  /** Lagrange's identity (ab - ce)^2 + (ac + eb)^2 = (a^2 + e^2)(c^2 + b^2), whose
      second square is never negative. */
  lemma LagrangeBound(a: real, b: real, c: real, e: real)
    ensures (a * b - c * e) * (a * b - c * e) <= (a * a + e * e) * (c * c + b * b)
  {
    Square(a * c + e * b);
    assert (a * b - c * e) * (a * b - c * e) + (a * c + e * b) * (a * c + e * b) == (a * a + e * e) * (c * c + b * b);
  }

  /** The mutable object of geometry/Pos.java; `add` is used as a running sum. */
  class MutablePos {
    var x: real
    var y: real

    function Value(): Pos
      reads this
    {
      Pos(x, y)
    }

    /** `new Pos()`: the origin. */
    constructor Origin()
      ensures Value() == Pos(0.0, 0.0)
    {
      x, y := 0.0, 0.0;
    }

    /** `new Pos(x, y)`. */
    constructor (x: real, y: real)
      ensures Value() == Pos(x, y)
    {
      this.x, this.y := x, y;
    }

    /** `add(other)`: the receiver becomes the component-wise sum. The argument is
        taken as a value: its only caller adds members of a set into a fresh sum. */
    method Add(other: Pos)
      modifies this
      ensures Value() == old(Value()).Plus(other)
    {
      x := x + other.x;
      y := y + other.y;
    }
  }
}
