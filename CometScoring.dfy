/** The image analyzer of analyze/ImageAnalyzer.java: clamped pixel access, window
    statistics and the comet score `checkComet`, plus the spots found in the image. */
module CometScoring {
  import opened JavaInt
  import opened MinMax
  import opened IntPos
  import RealPos
  import opened Sampling
  import opened Optional

  /** Math.max(0, Math.min(n-1, c)): the coordinate moved onto 0..n-1. */
  function Clamp(c: int, n: int): int
  {
    Max(0, Min(n - 1, c))
  }

  /** A grid with at least one row and one column, all rows of equal length. */
  predicate IsImage(g: Grid)
  {
    |g| > 0 && Width(g) > 0 && Rectangular(g)
  }

  /** `get(x, y)`: the pixel itself inside the grid, otherwise the pixel at the
      clamped coordinates. */
  function ClampedGet(g: Grid, x: int, y: int): (v: Int32)
    requires IsImage(g)
    ensures 0 <= x < Width(g) && 0 <= y < |g| ==> v == g[y][x]
    ensures v == g[Clamp(y, |g|)][Clamp(x, Width(g))]
  {
    if 0 <= x < Width(g) && 0 <= y < |g| then g[y][x]
    else g[Clamp(y, |g|)][Clamp(x, Width(g))]
  }

  /** The clamped coordinate is the nearest coordinate inside 0..n-1, and a
      coordinate already inside is left alone. */
  lemma ClampNearest(c: int, n: int)
    requires n > 0
    ensures 0 <= Clamp(c, n) < n
    ensures 0 <= c < n ==> Clamp(c, n) == c
    ensures forall k :: 0 <= k < n ==> Distance(c, Clamp(c, n)) <= Distance(c, k)
  {
  }

  function Distance(a: int, b: int): nat
  {
    Abs(a - b)
  }

  /** The pixels `get` returns for the coordinates `ps`, in order. */
  function ClampedSamples(g: Grid, ps: seq<Pos>): (vs: seq<Int32>)
    requires IsImage(g)
    ensures |vs| == |ps|
  {
    seq(|ps|, i requires 0 <= i < |ps| => ClampedGet(g, ps[i].x, ps[i].y))
  }

  lemma SamplesAppend(g: Grid, ps: seq<Pos>, qs: seq<Pos>)
    requires IsImage(g)
    ensures ClampedSamples(g, ps + qs) == ClampedSamples(g, ps) + ClampedSamples(g, qs)
  {
  }

  /** One more sample: the counter after one more update. */
  lemma SampleOne(g: Grid, s: Stats, ps: seq<Pos>, p: Pos)
    requires IsImage(g)
    ensures Fold(s, ClampedSamples(g, ps + [p])) == Observe(Fold(s, ClampedSamples(g, ps)), ClampedGet(g, p.x, p.y))
  {
    SamplesAppend(g, ps, [p]);
    assert ClampedSamples(g, [p]) == [ClampedGet(g, p.x, p.y)];
    FoldAppend(s, ClampedSamples(g, ps), ClampedGet(g, p.x, p.y));
  }

  /** Two more samples: the counter after two more updates. */
  lemma SampleTwo(g: Grid, s: Stats, ps: seq<Pos>, p: Pos, q: Pos)
    requires IsImage(g)
    ensures Fold(s, ClampedSamples(g, ps + [p, q]))
         == Observe(Observe(Fold(s, ClampedSamples(g, ps)), ClampedGet(g, p.x, p.y)), ClampedGet(g, q.x, q.y))
  {
    SamplesAppend(g, ps, [p, q]);
    assert ClampedSamples(g, [p, q]) == [ClampedGet(g, p.x, p.y), ClampedGet(g, q.x, q.y)];
    FoldPair(s, ClampedSamples(g, ps), ClampedGet(g, p.x, p.y), ClampedGet(g, q.x, q.y));
  }

  /** What `countRange` and `calcMinMax` return: the counter of the rectangle's pixels. */
  function RangeStats(g: Grid, fromX: int, fromY: int, toX: int, toY: int): Stats
    requires IsImage(g)
  {
    Fold(Fresh, ClampedSamples(g, Rect(fromX, fromY, toX, toY)))
  }

  /** What `countNeighbours` returns: the counter of the ring's pixels. */
  function RingStats(g: Grid, x: int, y: int, d: int): Stats
    requires IsImage(g)
  {
    Fold(Fresh, ClampedSamples(g, Ring(x, y, d)))
  }

  /** The two int differences `checkComet` computes (Java int subtraction, so they wrap). */
  function CenterDist(g: Grid, x: int, y: int): Int32
    requires IsImage(g)
  {
    Wrap32(Avg(RangeStats(g, x - 1, y - 1, x + 1, y + 1)) - RingStats(g, x, y, 4).min)
  }

  function OuterDist(g: Grid, x: int, y: int): Int32
    requires IsImage(g)
  {
    Wrap32(Avg(RingStats(g, x, y, 4)) - RingStats(g, x, y, 4).min)
  }

  /** `outerDist==0.0 ? centerDist : centerDist/outerDist`, the double division taken
      exactly. */
  function Ratio(centerDist: int, outerDist: int): real
  {
    if outerDist == 0 then centerDist as real else centerDist as real / outerDist as real
  }

  /** The comet score of pixel (x, y). */
  function Score(g: Grid, x: int, y: int): real
    requires IsImage(g)
  {
    Ratio(CenterDist(g, x, y), OuterDist(g, x, y))
  }

  /** With a positive denominator a threshold on the ratio is the integer comparison
      centerDist >= t * outerDist, so the double comparisons `>= 4.0` and `>= 1.6`
      decide the same as exact arithmetic on the two ints. */
  lemma RatioThreshold(c: int, o: int, t: real)
    requires o > 0
    ensures Ratio(c, o) >= t <==> c as real >= t * o as real
  {
    var q := c as real / o as real;
    assert q * o as real == c as real;
    if q >= t {
      assert q * o as real >= t * o as real;
    } else {
      assert q * o as real < t * o as real;
    }
  }

  /** The centre window has 9 samples and ring 4 has 32. */
  lemma {:induction false} WindowSizes(g: Grid, x: int, y: int)
    requires IsImage(g)
    ensures RangeStats(g, x - 1, y - 1, x + 1, y + 1).count == 9
    ensures RingStats(g, x, y, 4).count == 32
  {
    var center, ring := Rect(x - 1, y - 1, x + 1, y + 1), Ring(x, y, 4);
    assert |center| == 9 by {
      RectFacts(x - 1, y - 1, x + 1, y + 1);
      assert Span(x - 1, x + 1) == 3 && Span(y - 1, y + 1) == 3;
    }
    assert |ring| == 32 by {
      RingFacts(x, y, 4);
    }
    FoldFresh(ClampedSamples(g, center));
    FoldFresh(ClampedSamples(g, ring));
  }

  predicate NonNegativePixels(g: Grid)
  {
    forall y, x :: 0 <= y < |g| && 0 <= x < |g[y]| ==> g[y][x] >= 0
  }

  /** Every pixel `get` returns is one of the grid's pixels. */
  lemma {:induction false} SamplesNonNegative(g: Grid, ps: seq<Pos>)
    requires IsImage(g) && NonNegativePixels(g)
    ensures forall i :: 0 <= i < |ps| ==> ClampedSamples(g, ps)[i] >= 0
  {
    forall i | 0 <= i < |ps|
      ensures ClampedSamples(g, ps)[i] >= 0
    {
      ClampNearest(ps[i].x, Width(g));
      ClampNearest(ps[i].y, |g|);
    }
  }

  /** The ring-4 average never lies below the ring-4 minimum, and for an image without
      negative pixels the int difference does not wrap, so outerDist >= 0. */
  lemma {:induction false} OuterDistNonNegative(g: Grid, x: int, y: int)
    requires IsImage(g)
    ensures Avg(RingStats(g, x, y, 4)) >= RingStats(g, x, y, 4).min
    ensures NonNegativePixels(g) ==> OuterDist(g, x, y) >= 0
  {
    var vs := ClampedSamples(g, Ring(x, y, 4));
    var outer := RingStats(g, x, y, 4);
    WindowSizes(g, x, y);
    FoldConsistent(vs);
    AvgBetweenMinMax(outer);
    if NonNegativePixels(g) {
      FoldFresh(vs);
      SamplesNonNegative(g, Ring(x, y, 4));
      var k :| 0 <= k < |vs| && vs[k] == outer.min;
    }
  }

  predicate Constant(g: Grid, v: Int32)
  {
    forall y, x :: 0 <= y < |g| && 0 <= x < |g[y]| ==> g[y][x] == v
  }

  /** On a constant image every sample is that constant. */
  lemma {:induction false} SamplesOfConstant(g: Grid, v: Int32, ps: seq<Pos>)
    requires IsImage(g) && Constant(g, v)
    ensures forall i :: 0 <= i < |ps| ==> ClampedSamples(g, ps)[i] == v
  {
    forall i | 0 <= i < |ps|
      ensures ClampedSamples(g, ps)[i] == v
    {
      ClampNearest(ps[i].x, Width(g));
      ClampNearest(ps[i].y, |g|);
    }
  }

  /** A constant image scores 0 everywhere: no comet on a flat background. */
  lemma {:induction false} FlatScoresZero(g: Grid, v: Int32, x: int, y: int)
    requires IsImage(g) && Constant(g, v)
    ensures CenterDist(g, x, y) == 0 && OuterDist(g, x, y) == 0
    ensures Score(g, x, y) == 0.0
  {
    RectFacts(x - 1, y - 1, x + 1, y + 1);
    RingFacts(x, y, 4);
    SamplesOfConstant(g, v, Rect(x - 1, y - 1, x + 1, y + 1));
    SamplesOfConstant(g, v, Ring(x, y, 4));
    AvgOfEqualSamples(ClampedSamples(g, Rect(x - 1, y - 1, x + 1, y + 1)), v);
    AvgOfEqualSamples(ClampedSamples(g, Ring(x, y, 4)), v);
  }

  // The counters part-way through the loops of `countRange` and `countNeighbours`,
  // defined the way the loops build them, one or two updates per iteration.

  /** Counter `s` after the inner loop of `countRange` has visited x = fromX..x-1 of row y. */
  function RowAcc(g: Grid, s: Stats, fromX: int, x: int, y: int): Stats
    requires IsImage(g)
    decreases x - fromX
  {
    if x <= fromX then s else Observe(RowAcc(g, s, fromX, x - 1, y), ClampedGet(g, x - 1, y))
  }

  /** A fresh counter after the outer loop of `countRange` has visited rows fromY..y-1. */
  function RangeAcc(g: Grid, fromX: int, fromY: int, toX: int, y: int): Stats
    requires IsImage(g)
    decreases y - fromY
  {
    if y <= fromY then Fresh else RowAcc(g, RangeAcc(g, fromX, fromY, toX, y - 1), fromX, toX + 1, y - 1)
  }

  lemma {:induction false} RowAccFold(g: Grid, s: Stats, fromX: int, x: int, y: int)
    requires IsImage(g)
    ensures RowAcc(g, s, fromX, x, y) == Fold(s, ClampedSamples(g, Row(fromX, x - 1, y)))
    decreases x - fromX
  {
    if x > fromX {
      RowAccFold(g, s, fromX, x - 1, y);
      SampleOne(g, s, Row(fromX, x - 2, y), Pos(x - 1, y));
    }
  }

  lemma {:induction false} RangeAccFold(g: Grid, fromX: int, fromY: int, toX: int, y: int)
    requires IsImage(g)
    ensures RangeAcc(g, fromX, fromY, toX, y) == Fold(Fresh, ClampedSamples(g, Rect(fromX, fromY, toX, y - 1)))
    decreases y - fromY
  {
    if y > fromY {
      var rows, row := Rect(fromX, fromY, toX, y - 2), Row(fromX, toX, y - 1);
      RangeAccFold(g, fromX, fromY, toX, y - 1);
      RowAccFold(g, RangeAcc(g, fromX, fromY, toX, y - 1), fromX, toX + 1, y - 1);
      FoldThen(Fresh, ClampedSamples(g, rows), ClampedSamples(g, row));
      SamplesAppend(g, rows, row);
    }
  }

  /** Once the outer loop of `countRange` stops, the counter is the rectangle's. */
  lemma RangeAccDone(g: Grid, fromX: int, fromY: int, toX: int, toY: int, y: int)
    requires IsImage(g)
    requires y == toY + 1 || (y == fromY && toY < fromY)
    ensures RangeAcc(g, fromX, fromY, toX, y) == RangeStats(g, fromX, fromY, toX, toY)
  {
    RangeAccFold(g, fromX, fromY, toX, y);
    assert Rect(fromX, fromY, toX, y - 1) == Rect(fromX, fromY, toX, toY);
  }

  /** Counter `s` after the first loop of `countNeighbours` has run for n' = -d..n-1. */
  function TopAcc(g: Grid, s: Stats, x: int, y: int, d: int, n: int): Stats
    requires IsImage(g)
    decreases n + d
  {
    if n <= -d then s
    else Observe(Observe(TopAcc(g, s, x, y, d, n - 1), ClampedGet(g, x + n - 1, y - d)), ClampedGet(g, x + n - 1, y + d))
  }

  /** Counter `s` after the second loop of `countNeighbours` has run for n' = -d+1..n-1. */
  function SideAcc(g: Grid, s: Stats, x: int, y: int, d: int, n: int): Stats
    requires IsImage(g)
    decreases n + d
  {
    if n <= -d + 1 then s
    else Observe(Observe(SideAcc(g, s, x, y, d, n - 1), ClampedGet(g, x - d, y + n - 1)), ClampedGet(g, x + d, y + n - 1))
  }

  lemma {:induction false} TopAccFold(g: Grid, s: Stats, x: int, y: int, d: int, n: int)
    requires IsImage(g)
    ensures TopAcc(g, s, x, y, d, n) == Fold(s, ClampedSamples(g, Horizontal(x, y, d, -d, n - 1)))
    decreases n + d
  {
    if n > -d {
      TopAccFold(g, s, x, y, d, n - 1);
      assert Horizontal(x, y, d, -d, n - 1) == Horizontal(x, y, d, -d, n - 2) + [Pos(x + n - 1, y - d), Pos(x + n - 1, y + d)];
      SampleTwo(g, s, Horizontal(x, y, d, -d, n - 2), Pos(x + n - 1, y - d), Pos(x + n - 1, y + d));
    }
  }

  lemma {:induction false} SideAccFold(g: Grid, s: Stats, x: int, y: int, d: int, n: int)
    requires IsImage(g)
    ensures SideAcc(g, s, x, y, d, n) == Fold(s, ClampedSamples(g, Vertical(x, y, d, -d + 1, n - 1)))
    decreases n + d
  {
    if n > -d + 1 {
      SideAccFold(g, s, x, y, d, n - 1);
      assert Vertical(x, y, d, -d + 1, n - 1) == Vertical(x, y, d, -d + 1, n - 2) + [Pos(x - d, y + n - 1), Pos(x + d, y + n - 1)];
      SampleTwo(g, s, Vertical(x, y, d, -d + 1, n - 2), Pos(x - d, y + n - 1), Pos(x + d, y + n - 1));
    }
  }

  /** Where the first loop stops, it has sampled the top and bottom rows of the ring. */
  lemma TopAccDone(g: Grid, s: Stats, x: int, y: int, d: int, n: int)
    requires IsImage(g)
    requires n == d + 1 || (n == -d && d < n)
    ensures TopAcc(g, s, x, y, d, n) == Fold(s, ClampedSamples(g, Horizontal(x, y, d, -d, d)))
  {
    TopAccFold(g, s, x, y, d, n);
    assert Horizontal(x, y, d, -d, n - 1) == Horizontal(x, y, d, -d, d);
  }

  /** Where the second loop stops, it has sampled the left and right columns. */
  lemma SideAccDone(g: Grid, s: Stats, x: int, y: int, d: int, n: int)
    requires IsImage(g)
    requires n == d || (n == -d + 1 && d <= n)
    ensures SideAcc(g, s, x, y, d, n) == Fold(s, ClampedSamples(g, Vertical(x, y, d, -d + 1, d - 1)))
  {
    SideAccFold(g, s, x, y, d, n);
    assert Vertical(x, y, d, -d + 1, n - 1) == Vertical(x, y, d, -d + 1, d - 1);
  }

  /** Once both loops of `countNeighbours` stop, the counter is the ring's. The first
      stops at d+1, or at -d without running when d < 0; the second at d, or at -d+1
      without running when d <= 0. */
  lemma RingAccDone(g: Grid, x: int, y: int, d: int, n1: int, n2: int)
    requires IsImage(g)
    requires n1 == d + 1 || (n1 == -d && d < n1)
    requires n2 == d || (n2 == -d + 1 && d <= n2)
    ensures SideAcc(g, TopAcc(g, Fresh, x, y, d, n1), x, y, d, n2) == RingStats(g, x, y, d)
  {
    var top, side := Horizontal(x, y, d, -d, d), Vertical(x, y, d, -d + 1, d - 1);
    TopAccDone(g, Fresh, x, y, d, n1);
    SideAccDone(g, TopAcc(g, Fresh, x, y, d, n1), x, y, d, n2);
    SamplesAppend(g, top, side);
    FoldThen(Fresh, ClampedSamples(g, top), ClampedSamples(g, side));
  }

  /** The image analyzer: a timestamped pixel matrix and the spots found in it. The
      matrix is never written after construction, so it is held as a grid value. The
      file path, labelled comet position, magnitude and FITS header are not modelled. */
  class ImageAnalyzer {
    const timestamp: int
    const matrix: Grid
    const width: int
    const height: int
    var spots: Option<seq<RealPos.Pos>>

    /** `matrix[0].length` fails on an empty matrix, so one row is required. */
    constructor (timestamp: int, matrix: Grid)
      requires |matrix| > 0
      ensures this.timestamp == timestamp && this.matrix == matrix
      ensures height == |matrix| && width == Width(matrix)
      ensures spots == None
    {
      this.timestamp := timestamp;
      this.matrix := matrix;
      height := |matrix|;
      width := |matrix[0]|;
      spots := None;
    }

    /** The fields the constructor sets, all rows as long as the first, and a non-empty
        first row (`get` reads `matrix[borderY][0]` at least, which fails for an empty row). */
    predicate Valid()
    {
      IsImage(matrix) && height == |matrix| && width == Width(matrix)
    }

    predicate IsInRange(x: int, y: int)
    {
      0 <= x < width && 0 <= y < height
    }

    /** `get(x, y)`: reads the matrix at (x, y), or at the clamped coordinates outside it;
        it never indexes outside the matrix. */
    function Get(x: int, y: int): (v: Int32)
      requires Valid()
      ensures v == ClampedGet(matrix, x, y)
    {
      if IsInRange(x, y) then matrix[y][x]
      else matrix[Clamp(y, height)][Clamp(x, width)]
    }

    /** `countNeighbours(x, y, dist)`: a fresh counter over the ring at distance dist.
        Its two loops are the two methods below, run one after the other. */
    method CountNeighbours(x: int, y: int, dist: int) returns (result: MinMaxCounter)
      requires Valid()
      ensures fresh(result)
      ensures result.Value() == RingStats(matrix, x, y, dist)
    {
      result := new MinMaxCounter();
      var n1 := CountTopBottom(result, x, y, dist);
      var n2 := CountLeftRight(result, x, y, dist);
      RingAccDone(matrix, x, y, dist, n1, n2);
    }

    /** The first loop of `countNeighbours`: for n = -dist..dist the pixels (x+n, y-dist)
        and (x+n, y+dist). Returns where the loop counter stopped. */
    method CountTopBottom(counter: MinMaxCounter, x: int, y: int, dist: int) returns (n: int)
      requires Valid()
      modifies counter
      ensures n == dist + 1 || (n == -dist && dist < n)
      ensures counter.Value() == TopAcc(matrix, old(counter.Value()), x, y, dist, n)
    {
      n := -dist;
      while n <= dist
        invariant -dist <= n && (n <= dist + 1 || n == -dist)
        invariant counter.Value() == TopAcc(matrix, old(counter.Value()), x, y, dist, n)
      {
        var _ := counter.Update(Get(x + n, y - dist));
        var _ := counter.Update(Get(x + n, y + dist));
        n := n + 1;
      }
    }

    /** The second loop of `countNeighbours`: for n = -dist+1..dist-1 the pixels
        (x-dist, y+n) and (x+dist, y+n). Returns where the loop counter stopped. */
    method CountLeftRight(counter: MinMaxCounter, x: int, y: int, dist: int) returns (n: int)
      requires Valid()
      modifies counter
      ensures n == dist || (n == -dist + 1 && dist <= n)
      ensures counter.Value() == SideAcc(matrix, old(counter.Value()), x, y, dist, n)
    {
      n := -dist + 1;
      while n < dist
        invariant -dist + 1 <= n && (n <= dist || n == -dist + 1)
        invariant counter.Value() == SideAcc(matrix, old(counter.Value()), x, y, dist, n)
      {
        var _ := counter.Update(Get(x - dist, y + n));
        var _ := counter.Update(Get(x + dist, y + n));
        n := n + 1;
      }
    }

    /** `countRange(fromX, fromY, toX, toY)`: a fresh counter over the inclusive
        rectangle, visited row by row. */
    method CountRange(fromX: int, fromY: int, toX: int, toY: int) returns (result: MinMaxCounter)
      requires Valid()
      ensures fresh(result)
      ensures result.Value() == RangeStats(matrix, fromX, fromY, toX, toY)
    {
      result := new MinMaxCounter();
      var y := fromY;
      while y <= toY
        invariant fromY <= y && (y <= toY + 1 || y == fromY)
        invariant fresh(result)
        invariant result.Value() == RangeAcc(matrix, fromX, fromY, toX, y)
      {
        var x := fromX;
        while x <= toX
          invariant fromX <= x && (x <= toX + 1 || x == fromX)
          invariant fresh(result)
          invariant result.Value() == RowAcc(matrix, RangeAcc(matrix, fromX, fromY, toX, y), fromX, x, y)
        {
          var _ := result.Update(Get(x, y));
          x := x + 1;
        }
        y := y + 1;
      }
      RangeAccDone(matrix, fromX, fromY, toX, toY, y);
    }

    /** `calcMinMax` runs the same nested loops as `countRange`. */
    method CalcMinMax(fromX: int, fromY: int, toX: int, toY: int) returns (result: MinMaxCounter)
      requires Valid()
      ensures fresh(result)
      ensures result.Value() == RangeStats(matrix, fromX, fromY, toX, toY)
    {
      result := CountRange(fromX, fromY, toX, toY);
    }

    /** `checkComet(x, y)`: how much the 3x3 centre block stands out of ring 4,
        relative to how much ring 4 itself spreads. */
    method CheckComet(x: int, y: int) returns (factor: real)
      requires Valid()
      ensures factor == Score(matrix, x, y)
    {
      var center1MinMax := CalcMinMax(x - 1, y - 1, x + 1, y + 1);
      var outer4MinMax := CountNeighbours(x, y, 4);
      var centerDist := Wrap32(center1MinMax.GetAvg() - outer4MinMax.GetMin());
      var outerDist := Wrap32(outer4MinMax.GetAvg() - outer4MinMax.GetMin());
      factor := if outerDist == 0 then centerDist as real else centerDist as real / outerDist as real;
    }

    method SetSpots(spots: seq<RealPos.Pos>)
      modifies this
      ensures this.spots == Some(spots)
    {
      this.spots := Some(spots);
    }

    /** `getSpots()`: None (Java's null) until `setSpots` has run, then the list it stored. */
    function GetSpots(): (r: Option<seq<RealPos.Pos>>)
      reads this
      ensures r == spots
    {
      spots
    }
  }
}
