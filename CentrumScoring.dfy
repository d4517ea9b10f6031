/** The first image analyzer, ImageAnalyzer.java in the root package: pixels read with
    zero padding outside the image, ring and rectangle statistics, the centre test
    `checkCentrum`, the scan `findCenters` and the in-place subtraction `sub`. */
module CentrumScoring {
  import opened JavaInt
  import opened MinMax
  import opened IntPos
  import opened Sampling

  /** Inside the grid: a row index and a column index of that row. */
  predicate InGrid(g: Grid, x: int, y: int)
  {
    0 <= y < |g| && 0 <= x < |g[y]|
  }

  /** `get(x, y)`: the pixel inside the image, 0 outside it. */
  function PaddedGet(g: Grid, x: int, y: int): (v: Int32)
    ensures InGrid(g, x, y) ==> v == g[y][x]
    ensures !InGrid(g, x, y) ==> v == 0
  {
    if InGrid(g, x, y) then g[y][x] else 0
  }

  /** The pixels `get` returns for the coordinates `ps`, in order. */
  function PaddedSamples(g: Grid, ps: seq<Pos>): (vs: seq<Int32>)
    ensures |vs| == |ps|
  {
    seq(|ps|, i requires 0 <= i < |ps| => PaddedGet(g, ps[i].x, ps[i].y))
  }

  lemma SamplesAppend(g: Grid, ps: seq<Pos>, qs: seq<Pos>)
    ensures PaddedSamples(g, ps + qs) == PaddedSamples(g, ps) + PaddedSamples(g, qs)
  {
  }

  lemma SampleOne(g: Grid, s: Stats, ps: seq<Pos>, p: Pos)
    ensures Fold(s, PaddedSamples(g, ps + [p])) == Observe(Fold(s, PaddedSamples(g, ps)), PaddedGet(g, p.x, p.y))
  {
    SamplesAppend(g, ps, [p]);
    assert PaddedSamples(g, [p]) == [PaddedGet(g, p.x, p.y)];
    FoldAppend(s, PaddedSamples(g, ps), PaddedGet(g, p.x, p.y));
  }

  lemma SampleTwo(g: Grid, s: Stats, ps: seq<Pos>, p: Pos, q: Pos)
    ensures Fold(s, PaddedSamples(g, ps + [p, q]))
         == Observe(Observe(Fold(s, PaddedSamples(g, ps)), PaddedGet(g, p.x, p.y)), PaddedGet(g, q.x, q.y))
  {
    SamplesAppend(g, ps, [p, q]);
    assert PaddedSamples(g, [p, q]) == [PaddedGet(g, p.x, p.y), PaddedGet(g, q.x, q.y)];
    FoldPair(s, PaddedSamples(g, ps), PaddedGet(g, p.x, p.y), PaddedGet(g, q.x, q.y));
  }

  /** What `countRange` returns: the counter of the rectangle's pixels, zero outside. */
  function RangeStats(g: Grid, fromX: int, fromY: int, toX: int, toY: int): Stats
  {
    Fold(Fresh, PaddedSamples(g, Rect(fromX, fromY, toX, toY)))
  }

  /** What `countNeighbours` returns: the counter of the ring's pixels, zero outside. */
  function RingStats(g: Grid, x: int, y: int, d: int): Stats
  {
    Fold(Fresh, PaddedSamples(g, Ring(x, y, d)))
  }

  /** Ring `outer` lies strictly below ring `inner` in minimum, maximum and average:
      the negation of one disjunction of `checkCentrum`. */
  predicate Falls(inner: Stats, outer: Stats)
  {
    outer.min < inner.min && outer.max < inner.max && Avg(outer) < Avg(inner)
  }

  /** `checkCentrum(x, y)`: the ring-1 average does not exceed the pixel, rings 1 to 4
      fall strictly from each ring to the next, and ring 4's maximum does not exceed
      ring 1's minimum. */
  predicate IsCentrum(g: Grid, x: int, y: int)
  {
    var p := PaddedGet(g, x, y);
    var d1, d2, d3, d4 := RingStats(g, x, y, 1), RingStats(g, x, y, 2), RingStats(g, x, y, 3), RingStats(g, x, y, 4);
    && Avg(d1) <= p
    && Falls(d1, d2) && Falls(d2, d3) && Falls(d3, d4)
    && d4.max <= d1.min
  }

  /** The centre test as a predicate on positions, the filter of `findCenters`. */
  function Centra(g: Grid): Pos -> bool
  {
    (p: Pos) => IsCentrum(g, p.x, p.y)
  }

  lemma CentraAt(g: Grid, p: Pos)
    ensures Centra(g)(p) == IsCentrum(g, p.x, p.y)
  {
  }

  /** The value `matrix[y][x] -= n` stores: Java int subtraction wraps. */
  function Shifted(g: Grid, n: Int32): (r: Grid)
    ensures |r| == |g| && forall y :: 0 <= y < |g| ==> |r[y]| == |g[y]|
  {
    seq(|g|, y requires 0 <= y < |g| => seq(|g[y]|, x requires 0 <= x < |g[y]| => Wrap32(g[y][x] - n)))
  }

  // ---------------------------------------------------------------- loop states

  /** Counter `s` after the inner loop of `countRange` has visited x = fromX..x-1 of row y. */
  function RowAcc(g: Grid, s: Stats, fromX: int, x: int, y: int): Stats
    decreases x - fromX
  {
    if x <= fromX then s else Observe(RowAcc(g, s, fromX, x - 1, y), PaddedGet(g, x - 1, y))
  }

  /** A fresh counter after the outer loop of `countRange` has visited rows fromY..y-1. */
  function RangeAcc(g: Grid, fromX: int, fromY: int, toX: int, y: int): Stats
    decreases y - fromY
  {
    if y <= fromY then Fresh else RowAcc(g, RangeAcc(g, fromX, fromY, toX, y - 1), fromX, toX + 1, y - 1)
  }

  /** Counter `s` after the first loop of `countNeighbours` has run for n' = -d..n-1. */
  function TopAcc(g: Grid, s: Stats, x: int, y: int, d: int, n: int): Stats
    decreases n + d
  {
    if n <= -d then s
    else Observe(Observe(TopAcc(g, s, x, y, d, n - 1), PaddedGet(g, x + n - 1, y - d)), PaddedGet(g, x + n - 1, y + d))
  }

  /** Counter `s` after the second loop of `countNeighbours` has run for n' = -d+1..n-1. */
  function SideAcc(g: Grid, s: Stats, x: int, y: int, d: int, n: int): Stats
    decreases n + d
  {
    if n <= -d + 1 then s
    else Observe(Observe(SideAcc(g, s, x, y, d, n - 1), PaddedGet(g, x - d, y + n - 1)), PaddedGet(g, x + d, y + n - 1))
  }

  lemma {:induction false} RowAccFold(g: Grid, s: Stats, fromX: int, x: int, y: int)
    ensures RowAcc(g, s, fromX, x, y) == Fold(s, PaddedSamples(g, Row(fromX, x - 1, y)))
    decreases x - fromX
  {
    if x > fromX {
      RowAccFold(g, s, fromX, x - 1, y);
      SampleOne(g, s, Row(fromX, x - 2, y), Pos(x - 1, y));
    }
  }

  lemma {:induction false} RangeAccFold(g: Grid, fromX: int, fromY: int, toX: int, y: int)
    ensures RangeAcc(g, fromX, fromY, toX, y) == Fold(Fresh, PaddedSamples(g, Rect(fromX, fromY, toX, y - 1)))
    decreases y - fromY
  {
    if y > fromY {
      var rows, row := Rect(fromX, fromY, toX, y - 2), Row(fromX, toX, y - 1);
      RangeAccFold(g, fromX, fromY, toX, y - 1);
      RowAccFold(g, RangeAcc(g, fromX, fromY, toX, y - 1), fromX, toX + 1, y - 1);
      FoldThen(Fresh, PaddedSamples(g, rows), PaddedSamples(g, row));
      SamplesAppend(g, rows, row);
    }
  }

  /** Once the outer loop of `countRange` stops, the counter is the rectangle's. */
  lemma RangeAccDone(g: Grid, fromX: int, fromY: int, toX: int, toY: int, y: int)
    requires y == toY + 1 || (y == fromY && toY < fromY)
    ensures RangeAcc(g, fromX, fromY, toX, y) == RangeStats(g, fromX, fromY, toX, toY)
  {
    RangeAccFold(g, fromX, fromY, toX, y);
    assert Rect(fromX, fromY, toX, y - 1) == Rect(fromX, fromY, toX, toY);
  }

  lemma {:induction false} TopAccFold(g: Grid, s: Stats, x: int, y: int, d: int, n: int)
    ensures TopAcc(g, s, x, y, d, n) == Fold(s, PaddedSamples(g, Horizontal(x, y, d, -d, n - 1)))
    decreases n + d
  {
    if n > -d {
      TopAccFold(g, s, x, y, d, n - 1);
      assert Horizontal(x, y, d, -d, n - 1) == Horizontal(x, y, d, -d, n - 2) + [Pos(x + n - 1, y - d), Pos(x + n - 1, y + d)];
      SampleTwo(g, s, Horizontal(x, y, d, -d, n - 2), Pos(x + n - 1, y - d), Pos(x + n - 1, y + d));
    }
  }

  lemma {:induction false} SideAccFold(g: Grid, s: Stats, x: int, y: int, d: int, n: int)
    ensures SideAcc(g, s, x, y, d, n) == Fold(s, PaddedSamples(g, Vertical(x, y, d, -d + 1, n - 1)))
    decreases n + d
  {
    if n > -d + 1 {
      SideAccFold(g, s, x, y, d, n - 1);
      assert Vertical(x, y, d, -d + 1, n - 1) == Vertical(x, y, d, -d + 1, n - 2) + [Pos(x - d, y + n - 1), Pos(x + d, y + n - 1)];
      SampleTwo(g, s, Vertical(x, y, d, -d + 1, n - 2), Pos(x - d, y + n - 1), Pos(x + d, y + n - 1));
    }
  }

  /** Where the first loop stops, it has sampled the top and bottom rows of the ring. */
  lemma TopAccDone(g: Grid, s: Stats, x: int, y: int, d: int, n: int)
    requires n == d + 1 || (n == -d && d < n)
    ensures TopAcc(g, s, x, y, d, n) == Fold(s, PaddedSamples(g, Horizontal(x, y, d, -d, d)))
  {
    TopAccFold(g, s, x, y, d, n);
    assert Horizontal(x, y, d, -d, n - 1) == Horizontal(x, y, d, -d, d);
  }

  /** Where the second loop stops, it has sampled the left and right columns. */
  lemma SideAccDone(g: Grid, s: Stats, x: int, y: int, d: int, n: int)
    requires n == d || (n == -d + 1 && d <= n)
    ensures SideAcc(g, s, x, y, d, n) == Fold(s, PaddedSamples(g, Vertical(x, y, d, -d + 1, d - 1)))
  {
    SideAccFold(g, s, x, y, d, n);
    assert Vertical(x, y, d, -d + 1, n - 1) == Vertical(x, y, d, -d + 1, d - 1);
  }

  /** Once both loops of `countNeighbours` stop, the counter is the ring's. */
  lemma RingAccDone(g: Grid, x: int, y: int, d: int, n1: int, n2: int)
    requires n1 == d + 1 || (n1 == -d && d < n1)
    requires n2 == d || (n2 == -d + 1 && d <= n2)
    ensures SideAcc(g, TopAcc(g, Fresh, x, y, d, n1), x, y, d, n2) == RingStats(g, x, y, d)
  {
    var top, side := Horizontal(x, y, d, -d, d), Vertical(x, y, d, -d + 1, d - 1);
    TopAccDone(g, Fresh, x, y, d, n1);
    SideAccDone(g, TopAcc(g, Fresh, x, y, d, n1), x, y, d, n2);
    SamplesAppend(g, top, side);
    FoldThen(Fresh, PaddedSamples(g, top), PaddedSamples(g, side));
  }

  // ---------------------------------------------------------------- properties

  /** Every pixel of a centre's ring 4 is at most the centre pixel and at most every
      pixel of its ring 1: the centre stands above its surroundings. */
  lemma {:induction false} CentrumDominates(g: Grid, x: int, y: int)
    requires IsCentrum(g, x, y)
    ensures forall i :: 0 <= i < |Ring(x, y, 4)| ==> PaddedSamples(g, Ring(x, y, 4))[i] <= PaddedGet(g, x, y)
    ensures forall i, j :: 0 <= i < |Ring(x, y, 4)| && 0 <= j < |Ring(x, y, 1)| ==>
              PaddedSamples(g, Ring(x, y, 4))[i] <= PaddedSamples(g, Ring(x, y, 1))[j]
  {
    var inner, outer := PaddedSamples(g, Ring(x, y, 1)), PaddedSamples(g, Ring(x, y, 4));
    RingFacts(x, y, 1);
    FoldFresh(inner);
    FoldFresh(outer);
    FoldConsistent(inner);
    AvgBetweenMinMax(RingStats(g, x, y, 1));
  }

  /** The three strict falls chain: ring 4 lies strictly below ring 1 in minimum,
      maximum and average. */
  lemma FallsTransitive(a: Stats, b: Stats, c: Stats)
    requires Falls(a, b) && Falls(b, c)
    ensures Falls(a, c)
  {
  }

  /** The ring samples of an interior pixel, up to distance d, all lie inside the grid. */
  lemma {:induction false} RingInside(g: Grid, x: int, y: int, d: int)
    requires Rectangular(g) && d >= 1
    requires d <= x < Width(g) - d && d <= y < |g| - d
    ensures forall i :: 0 <= i < |Ring(x, y, d)| ==> InGrid(g, Ring(x, y, d)[i].x, Ring(x, y, d)[i].y)
  {
    RingFacts(x, y, d);
    forall i | 0 <= i < |Ring(x, y, d)|
      ensures InGrid(g, Ring(x, y, d)[i].x, Ring(x, y, d)[i].y)
    {
      assert Ring(x, y, d)[i] in Ring(x, y, d);
    }
  }

  /** On a flat image no pixel at least 4 from the border is a centre: ring 2's
      minimum equals ring 1's. */
  lemma {:induction false} FlatHasNoCentrum(g: Grid, v: Int32, x: int, y: int)
    requires Rectangular(g)
    requires forall j, i :: 0 <= j < |g| && 0 <= i < |g[j]| ==> g[j][i] == v
    requires 4 <= x < Width(g) - 4 && 4 <= y < |g| - 4
    ensures !IsCentrum(g, x, y)
  {
    var s1, s2 := PaddedSamples(g, Ring(x, y, 1)), PaddedSamples(g, Ring(x, y, 2));
    RingFacts(x, y, 1);
    RingFacts(x, y, 2);
    RingInside(g, x, y, 1);
    RingInside(g, x, y, 2);
    AvgOfEqualSamples(s1, v);
    AvgOfEqualSamples(s2, v);
  }

  /** One update of two counters that differ by a shift of n keeps them shifted by n. */
  lemma ObserveShift(s: Stats, t: Stats, v: Int32, w: Int32, n: int)
    requires t.min == s.min - n && t.max == s.max - n && t.count == s.count
    requires t.total == s.total - s.count * n && w == v - n
    ensures Observe(t, w).min == Observe(s, v).min - n
    ensures Observe(t, w).max == Observe(s, v).max - n
    ensures Observe(t, w).count == Observe(s, v).count
    ensures Observe(t, w).total == Observe(s, v).total - (s.count + 1) * n
  {
    MulDistributes(s.count, 1, n);
  }

  /** Subtracting n from every sample, without wrap-around, lowers minimum and maximum
      by n and the total by count*n. */
  lemma {:induction false} FoldShift(vs: seq<Int32>, ws: seq<Int32>, n: int)
    requires |ws| == |vs| > 0
    requires forall i :: 0 <= i < |vs| ==> ws[i] == vs[i] - n
    ensures Fold(Fresh, ws).min == Fold(Fresh, vs).min - n
    ensures Fold(Fresh, ws).max == Fold(Fresh, vs).max - n
    ensures Fold(Fresh, ws).count == Fold(Fresh, vs).count == |vs|
    ensures Fold(Fresh, ws).total == Fold(Fresh, vs).total - |vs| * n
  {
    var k := |vs| - 1;
    if k == 0 {
      assert vs[..0] == [] && ws[..0] == [];
    } else {
      assert Fold(Fresh, vs) == Observe(Fold(Fresh, vs[..k]), vs[k]);
      assert Fold(Fresh, ws) == Observe(Fold(Fresh, ws[..k]), ws[k]);
      hide Fold;
      FoldShift(vs[..k], ws[..k], n);
      ObserveShift(Fold(Fresh, vs[..k]), Fold(Fresh, ws[..k]), vs[k], ws[k], n);
    }
  }

  /** After `sub(n)` the samples of positions inside the image are the old samples less
      n, where the subtraction does not wrap. */
  lemma SamplesShifted(g: Grid, n: Int32, ps: seq<Pos>)
    requires forall i :: 0 <= i < |ps| ==> InGrid(g, ps[i].x, ps[i].y)
    requires forall j, i :: 0 <= j < |g| && 0 <= i < |g[j]| ==> IntMin <= g[j][i] - n <= IntMax
    ensures forall i :: 0 <= i < |ps| ==> PaddedSamples(Shifted(g, n), ps)[i] == PaddedSamples(g, ps)[i] - n
  {
  }

  /** `sub(n)` shifts the ring statistics of a pixel at least d from the border: its
      minimum and maximum fall by n, its total by 8*d*n. Closer to the border the zero
      padding is not shifted. */
  lemma {:induction false} SubShiftsRing(g: Grid, n: Int32, x: int, y: int, d: int)
    requires Rectangular(g) && d >= 1
    requires d <= x < Width(g) - d && d <= y < |g| - d
    requires forall j, i :: 0 <= j < |g| && 0 <= i < |g[j]| ==> IntMin <= g[j][i] - n <= IntMax
    ensures RingStats(Shifted(g, n), x, y, d).min == RingStats(g, x, y, d).min - n
    ensures RingStats(Shifted(g, n), x, y, d).max == RingStats(g, x, y, d).max - n
    ensures RingStats(Shifted(g, n), x, y, d).total == RingStats(g, x, y, d).total - 8 * d * n
  {
    RingFacts(x, y, d);
    RingInside(g, x, y, d);
    SamplesShifted(g, n, Ring(x, y, d));
    FoldShift(PaddedSamples(g, Ring(x, y, d)), PaddedSamples(Shifted(g, n), Ring(x, y, d)), n);
  }

  /** The scan visits every pixel once in row-major order, so the centres come out
      row-major, each once, and are exactly the in-image positions passing the test. */
  lemma FindCentersFacts(g: Grid, width: int, height: int)
    ensures forall p :: p in Filter(Centra(g), Rect(0, 0, width - 1, height - 1)) <==>
              0 <= p.x < width && 0 <= p.y < height && IsCentrum(g, p.x, p.y)
    ensures RowMajor(Filter(Centra(g), Rect(0, 0, width - 1, height - 1)))
    ensures NoDuplicates(Filter(Centra(g), Rect(0, 0, width - 1, height - 1)))
  {
    var all := Rect(0, 0, width - 1, height - 1);
    RectFacts(0, 0, width - 1, height - 1);
    FilterMembers(Centra(g), all);
    FilterRowMajor(Centra(g), all);
    RowMajorNoDuplicates(Filter(Centra(g), all));
  }

  // ---------------------------------------------------------------- the analyzer

  /** The analyzer over a pixel matrix it shares with its creator: `sub` writes the
      caller's matrix. A Java `int[][]` is held as a rectangular two-dimensional array. */
  class ImageAnalyzer {
    const matrix: array2<Int32>
    const width: int
    const height: int

    /** `matrix[0].length` fails on a matrix without rows, so one row is required. */
    constructor (matrix: array2<Int32>)
      requires matrix.Length0 > 0
      ensures this.matrix == matrix
      ensures height == matrix.Length0 && width == matrix.Length1
    {
      this.matrix := matrix;
      height := matrix.Length0;
      width := matrix.Length1;
    }

    predicate Valid()
    {
      height == matrix.Length0 && width == matrix.Length1
    }

    /** The matrix as a grid value: row y, column x. */
    ghost function Pixels(): (g: Grid)
      reads matrix
      ensures |g| == matrix.Length0 && Rectangular(g) && (|g| > 0 ==> Width(g) == matrix.Length1)
    {
      seq(matrix.Length0, y requires 0 <= y < matrix.Length0 reads matrix =>
        seq(matrix.Length1, x requires 0 <= x < matrix.Length1 reads matrix => matrix[y, x]))
    }

    predicate IsInRange(x: int, y: int)
    {
      0 <= x < width && 0 <= y < height
    }

    /** `get(x, y)`. */
    function Get(x: int, y: int): (v: Int32)
      requires Valid()
      reads matrix
      ensures v == PaddedGet(Pixels(), x, y)
    {
      if IsInRange(x, y) then matrix[y, x] else 0
    }

    /** `countNeighbours(x, y, dist)`: a fresh counter over the ring at distance dist,
        zero outside the image. Its two loops are the two methods below. */
    method CountNeighbours(x: int, y: int, dist: int) returns (result: MinMaxCounter)
      requires Valid()
      ensures fresh(result)
      ensures result.Value() == RingStats(Pixels(), x, y, dist)
    {
      result := new MinMaxCounter();
      var n1 := CountTopBottom(result, x, y, dist);
      var n2 := CountLeftRight(result, x, y, dist);
      RingAccDone(Pixels(), x, y, dist, n1, n2);
    }

    /** The first loop of `countNeighbours`: for n = -dist..dist the pixels (x+n, y-dist)
        and (x+n, y+dist). Returns where the loop counter stopped. */
    method CountTopBottom(counter: MinMaxCounter, x: int, y: int, dist: int) returns (n: int)
      requires Valid()
      modifies counter
      ensures n == dist + 1 || (n == -dist && dist < n)
      ensures counter.Value() == TopAcc(Pixels(), old(counter.Value()), x, y, dist, n)
    {
      n := -dist;
      while n <= dist
        invariant -dist <= n && (n <= dist + 1 || n == -dist)
        invariant counter.Value() == TopAcc(Pixels(), old(counter.Value()), x, y, dist, n)
      {
        var _ := counter.Update(Get(x + n, y - dist));
        var _ := counter.Update(Get(x + n, y + dist));
        n := n + 1;
      }
    }

    /** The second loop of `countNeighbours`: for n = -dist+1..dist-1 the pixels
        (x-dist, y+n) and (x+dist, y+n). Returns where the loop counter stopped. */
    method CountLeftRight(counter: MinMaxCounter, x: int, y: int, dist: int) returns (n: int)
      requires Valid()
      modifies counter
      ensures n == dist || (n == -dist + 1 && dist <= n)
      ensures counter.Value() == SideAcc(Pixels(), old(counter.Value()), x, y, dist, n)
    {
      n := -dist + 1;
      while n < dist
        invariant -dist + 1 <= n && (n <= dist || n == -dist + 1)
        invariant counter.Value() == SideAcc(Pixels(), old(counter.Value()), x, y, dist, n)
      {
        var _ := counter.Update(Get(x - dist, y + n));
        var _ := counter.Update(Get(x + dist, y + n));
        n := n + 1;
      }
    }

    /** `countRange(fromX, fromY, toX, toY)`: a fresh counter over the inclusive
        rectangle, visited row by row, zero outside the image. */
    method CountRange(fromX: int, fromY: int, toX: int, toY: int) returns (result: MinMaxCounter)
      requires Valid()
      ensures fresh(result)
      ensures result.Value() == RangeStats(Pixels(), fromX, fromY, toX, toY)
    {
      result := new MinMaxCounter();
      var y := fromY;
      while y <= toY
        invariant fromY <= y && (y <= toY + 1 || y == fromY)
        invariant fresh(result)
        invariant result.Value() == RangeAcc(Pixels(), fromX, fromY, toX, y)
      {
        var x := fromX;
        while x <= toX
          invariant fromX <= x && (x <= toX + 1 || x == fromX)
          invariant fresh(result)
          invariant result.Value() == RowAcc(Pixels(), RangeAcc(Pixels(), fromX, fromY, toX, y), fromX, x, y)
        {
          var _ := result.Update(Get(x, y));
          x := x + 1;
        }
        y := y + 1;
      }
      RangeAccDone(Pixels(), fromX, fromY, toX, toY, y);
    }

    /** `checkCentrum(x, y)`, returning false at the first comparison that fails. */
    method CheckCentrum(x: int, y: int) returns (r: bool)
      requires Valid()
      ensures r == IsCentrum(Pixels(), x, y)
    {
      var p := Get(x, y);
      var d1 := CountNeighbours(x, y, 1);
      if d1.GetAvg() > p {
        return false;
      }
      var d2 := CountNeighbours(x, y, 2);
      if d2.GetMin() >= d1.GetMin() || d2.GetMax() >= d1.GetMax() || d2.GetAvg() >= d1.GetAvg() {
        return false;
      }
      var d3 := CountNeighbours(x, y, 3);
      if d3.GetMin() >= d2.GetMin() || d3.GetMax() >= d2.GetMax() || d3.GetAvg() >= d2.GetAvg() {
        return false;
      }
      var d4 := CountNeighbours(x, y, 4);
      if d4.GetMin() >= d3.GetMin() || d4.GetMax() >= d3.GetMax() || d4.GetAvg() >= d3.GetAvg() {
        return false;
      }
      if d4.GetMax() > d1.GetMin() {
        return false;
      }
      return true;
    }

    /** `findCenters()`: the centres in row-major order over the whole image. The
        inner loop over one row is `ScanRow`. */
    method FindCenters() returns (result: seq<Pos>)
      requires Valid()
      ensures result == Filter(Centra(Pixels()), Rect(0, 0, width - 1, height - 1))
    {
      result := [];
      var y := 0;
      while y < height
        invariant 0 <= y <= height
        invariant result == Filter(Centra(Pixels()), Rect(0, 0, width - 1, y - 1))
      {
        var row := ScanRow(y);
        FilterConcat(Centra(Pixels()), Rect(0, 0, width - 1, y - 1), Row(0, width - 1, y));
        result := result + row;
        y := y + 1;
      }
    }

    /** The inner loop of `findCenters` over x = 0..width-1 of row y: the centres it appends. */
    method ScanRow(y: int) returns (row: seq<Pos>)
      requires Valid()
      ensures row == Filter(Centra(Pixels()), Row(0, width - 1, y))
    {
      // The loop needs only that each verdict is the predicate's value, not how it is computed.
      hide IsCentrum;
      ghost var keep := Centra(Pixels());
      row := [];
      var x := 0;
      while x < width
        invariant 0 <= x <= width || (x == 0 && width < 0)
        invariant row == Filter(keep, Row(0, x - 1, y))
      {
        var c := CheckCentrum(x, y);
        CentraAt(Pixels(), Pos(x, y));
        FilterAppend(keep, Row(0, x - 1, y), Pos(x, y));
        if c {
          row := row + [Pos(x, y)];
        }
        x := x + 1;
      }
    }

    /** `sub(n)`: subtracts n from every pixel in place, with Java's wrap-around. */
    method Sub(n: Int32)
      requires Valid()
      modifies matrix
      ensures Pixels() == Shifted(old(Pixels()), n)
    {
      var y := 0;
      while y < height
        invariant 0 <= y <= height
        invariant forall j, i :: 0 <= j < y && 0 <= i < width ==> matrix[j, i] == Wrap32(old(matrix[j, i]) - n)
        invariant forall j, i :: y <= j < height && 0 <= i < width ==> matrix[j, i] == old(matrix[j, i])
      {
        var x := 0;
        while x < width
          invariant 0 <= x <= width
          invariant forall j, i :: 0 <= j < y && 0 <= i < width ==> matrix[j, i] == Wrap32(old(matrix[j, i]) - n)
          invariant forall i :: 0 <= i < x ==> matrix[y, i] == Wrap32(old(matrix[y, i]) - n)
          invariant forall j, i :: (y < j < height || (j == y && x <= i)) && 0 <= i < width ==> matrix[j, i] == old(matrix[j, i])
        {
          matrix[y, x] := Wrap32(matrix[y, x] - n);
          x := x + 1;
        }
        y := y + 1;
      }
      assert Pixels() == Shifted(old(Pixels()), n) by {
        forall j | 0 <= j < height
          ensures Pixels()[j] == Shifted(old(Pixels()), n)[j]
        {
        }
      }
    }
  }
}
