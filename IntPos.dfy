/** The integer pixel position of Pos.java. */
module IntPos {
  import opened JavaInt

  /** A position as a value: `equals` and `hashCode` compare x and y, so sets,
      maps and lists of positions see exactly this value. */
  datatype Pos = Pos(x: int, y: int)
  {
    /** `getSQDist`: the squared Euclidean distance. */
    function SQDist(other: Pos): (d: int)
      ensures d >= 0
      ensures d == 0 <==> this == other
    {
      var dx, dy := other.x - x, other.y - y;
      SquareZero(dx);
      SquareZero(dy);
      dx * dx + dy * dy
    }

    /** `getManhattenDist`: the sum of the coordinate distances. */
    function ManhattanDist(other: Pos): (d: int)
      ensures d >= 0
      ensures d == 0 <==> this == other
    {
      Abs(other.x - x) + Abs(other.y - y)
    }

    /** `equals`: holds exactly for the same value. */
    predicate Equals(other: Pos): (r: bool)
      ensures r <==> this == other
    {
      x == other.x && y == other.y
    }

    /** The component-wise sum that `add` stores into the receiver. */
    function Plus(other: Pos): Pos
    {
      Pos(x + other.x, y + other.y)
    }
  }

  lemma SquareZero(d: int)
    ensures d * d >= 0 && (d * d == 0 <==> d == 0)
  {
    if d != 0 {
      MulAbsAtLeast(d, d);
    }
  }

  /** Both distances are symmetric. */
  lemma DistSymmetric(a: Pos, b: Pos)
    ensures a.SQDist(b) == b.SQDist(a)
    ensures a.ManhattanDist(b) == b.ManhattanDist(a)
  {
    assert (b.x - a.x) * (b.x - a.x) == (a.x - b.x) * (a.x - b.x);
    assert (b.y - a.y) * (b.y - a.y) == (a.y - b.y) * (a.y - b.y);
  }

  /** The Manhattan distance satisfies the triangle inequality. */
  lemma ManhattanTriangle(a: Pos, b: Pos, c: Pos)
    ensures a.ManhattanDist(c) <= a.ManhattanDist(b) + b.ManhattanDist(c)
  {
  }

  /** The mutable object of Pos.java, whose only mutator is `add`. */
  class MutablePos {
    var x: int
    var y: int

    function Value(): Pos
      reads this
    {
      Pos(x, y)
    }

    /** `new Pos()`: the origin. */
    constructor Origin()
      ensures Value() == Pos(0, 0)
    {
      x, y := 0, 0;
    }

    /** `new Pos(x, y)`. */
    constructor (x: int, y: int)
      ensures Value() == Pos(x, y)
    {
      this.x, this.y := x, y;
    }

    /** `add(other)`: the receiver becomes the component-wise sum; `other` is
        unchanged unless it is the receiver, which is then doubled. */
    method Add(other: MutablePos)
      modifies this
      ensures Value() == old(Value()).Plus(old(other.Value()))
      ensures other != this ==> other.Value() == old(other.Value())
    {
      x := x + other.x;
      y := y + other.y;
    }
  }
}
