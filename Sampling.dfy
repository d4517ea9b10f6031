/** The pixel windows both image analyzers sample: the coordinates of an inclusive
    rectangle (the loops of `countRange` and `calcMinMax`) and of the perimeter of a
    square ring (the two loops of `countNeighbours`), each in the order the loops
    visit them, plus row-major filtering (the loops of `findCenters` and
    `searchAllComets`). */
module Sampling {
  import opened JavaInt
  import opened IntPos

  /** A pixel matrix as a value: rows indexed by y, each row indexed by x. */
  type Grid = seq<seq<Int32>>

  function Width(g: Grid): nat
  {
    if |g| == 0 then 0 else |g[0]|
  }

  /** Every row as long as the first: what a Java `int[][]` image holds in practice. */
  predicate Rectangular(g: Grid)
  {
    forall y :: 0 <= y < |g| ==> |g[y]| == Width(g)
  }

  /** The number of integers in lo..hi. */
  function Span(lo: int, hi: int): nat
  {
    if hi < lo then 0 else hi - lo + 1
  }

  /** The larger of the two coordinate distances. */
  function Chebyshev(p: Pos, q: Pos): nat
  {
    Max(Abs(p.x - q.x), Abs(p.y - q.y))
  }

  /** Strictly earlier in row-major order: an earlier row, or the same row and a smaller x. */
  predicate Before(p: Pos, q: Pos)
  {
    p.y < q.y || (p.y == q.y && p.x < q.x)
  }

  predicate RowMajor(ps: seq<Pos>)
  {
    forall i, j :: 0 <= i < j < |ps| ==> Before(ps[i], ps[j])
  }

  predicate NoDuplicates<T(==)>(s: seq<T>)
  {
    forall i, j :: 0 <= i < j < |s| ==> s[i] != s[j]
  }

  // ---------------------------------------------------------------- rectangles

  /** The inner loop over x = fromX..toX in row y. */
  function Row(fromX: int, toX: int, y: int): seq<Pos>
    decreases toX - fromX
  {
    if toX < fromX then [] else Row(fromX, toX - 1, y) + [Pos(toX, y)]
  }

  /** The nested loops over y = fromY..toY and x = fromX..toX, both ends included. */
  function Rect(fromX: int, fromY: int, toX: int, toY: int): seq<Pos>
    decreases toY - fromY
  {
    if toY < fromY then [] else Rect(fromX, fromY, toX, toY - 1) + Row(fromX, toX, toY)
  }

  lemma {:induction false} RowFacts(fromX: int, toX: int, y: int)
    ensures |Row(fromX, toX, y)| == Span(fromX, toX)
    ensures forall p :: p in Row(fromX, toX, y) <==> fromX <= p.x <= toX && p.y == y
    ensures RowMajor(Row(fromX, toX, y))
    decreases toX - fromX
  {
    if fromX <= toX {
      RowFacts(fromX, toX - 1, y);
    }
  }

  /** A rectangle visits (toX-fromX+1)*(toY-fromY+1) pixels, exactly those inside it,
      each once, in row-major order. */
  lemma {:induction false} RectFacts(fromX: int, fromY: int, toX: int, toY: int)
    ensures |Rect(fromX, fromY, toX, toY)| == Span(fromX, toX) * Span(fromY, toY)
    ensures forall p :: p in Rect(fromX, fromY, toX, toY) <==>
              fromX <= p.x <= toX && fromY <= p.y <= toY
    ensures RowMajor(Rect(fromX, fromY, toX, toY))
    ensures NoDuplicates(Rect(fromX, fromY, toX, toY))
    decreases toY - fromY
  {
    if fromY <= toY {
      var init := Rect(fromX, fromY, toX, toY - 1);
      var row := Row(fromX, toX, toY);
      RectFacts(fromX, fromY, toX, toY - 1);
      RowFacts(fromX, toX, toY);
      SpanStep(fromX, toX, fromY, toY);
      AppendRowMajor(init, row);
    }
    RowMajorNoDuplicates(Rect(fromX, fromY, toX, toY));
  }

  lemma SpanStep(fromX: int, toX: int, fromY: int, toY: int)
    requires fromY <= toY
    ensures Span(fromX, toX) * Span(fromY, toY) == Span(fromX, toX) * Span(fromY, toY - 1) + Span(fromX, toX)
  {
    assert Span(fromY, toY) == Span(fromY, toY - 1) + 1;
  }

  /** Two row-major runs, the first entirely before the second, concatenate to a row-major run. */
  lemma AppendRowMajor(a: seq<Pos>, b: seq<Pos>)
    requires RowMajor(a) && RowMajor(b)
    requires forall p, q :: p in a && q in b ==> Before(p, q)
    ensures RowMajor(a + b)
  {
    forall i, j | 0 <= i < j < |a + b|
      ensures Before((a + b)[i], (a + b)[j])
    {
      if j < |a| {
      } else if i >= |a| {
        assert (a + b)[i] == b[i - |a|];
        assert (a + b)[j] == b[j - |a|];
      } else {
        assert (a + b)[i] in a;
        assert (a + b)[j] in b;
      }
    }
  }

  // ---------------------------------------------------------------- rings

  /** The first loop of `countNeighbours` for n = lo..hi: the points (x+n, y-d) and
      (x+n, y+d), in that order, for each n. */
  function Horizontal(x: int, y: int, d: int, lo: int, hi: int): seq<Pos>
    decreases hi - lo
  {
    if hi < lo then [] else Horizontal(x, y, d, lo, hi - 1) + [Pos(x + hi, y - d), Pos(x + hi, y + d)]
  }

  /** The second loop of `countNeighbours` for n = lo..hi: the points (x-d, y+n) and
      (x+d, y+n), in that order, for each n. */
  function Vertical(x: int, y: int, d: int, lo: int, hi: int): seq<Pos>
    decreases hi - lo
  {
    if hi < lo then [] else Vertical(x, y, d, lo, hi - 1) + [Pos(x - d, y + hi), Pos(x + d, y + hi)]
  }

  /** Every point `countNeighbours(x, y, d)` samples, in sampling order. */
  function Ring(x: int, y: int, d: int): seq<Pos>
  {
    Horizontal(x, y, d, -d, d) + Vertical(x, y, d, -d + 1, d - 1)
  }

  lemma {:induction false} HorizontalFacts(x: int, y: int, d: int, lo: int, hi: int)
    requires d >= 1
    ensures |Horizontal(x, y, d, lo, hi)| == 2 * Span(lo, hi)
    ensures forall p :: p in Horizontal(x, y, d, lo, hi) <==>
              lo <= p.x - x <= hi && (p.y == y - d || p.y == y + d)
    ensures NoDuplicates(Horizontal(x, y, d, lo, hi))
    decreases hi - lo
  {
    if lo <= hi {
      var init := Horizontal(x, y, d, lo, hi - 1);
      var tail := [Pos(x + hi, y - d), Pos(x + hi, y + d)];
      HorizontalFacts(x, y, d, lo, hi - 1);
      AppendNoDuplicates(init, tail);
    }
  }

  lemma {:induction false} VerticalFacts(x: int, y: int, d: int, lo: int, hi: int)
    requires d >= 1
    ensures |Vertical(x, y, d, lo, hi)| == 2 * Span(lo, hi)
    ensures forall p :: p in Vertical(x, y, d, lo, hi) <==>
              lo <= p.y - y <= hi && (p.x == x - d || p.x == x + d)
    ensures NoDuplicates(Vertical(x, y, d, lo, hi))
    decreases hi - lo
  {
    if lo <= hi {
      var init := Vertical(x, y, d, lo, hi - 1);
      var tail := [Pos(x - d, y + hi), Pos(x + d, y + hi)];
      VerticalFacts(x, y, d, lo, hi - 1);
      AppendNoDuplicates(init, tail);
    }
  }

  /** Two duplicate-free sequences with no common element concatenate to a
      duplicate-free sequence. */
  lemma AppendNoDuplicates<T>(a: seq<T>, b: seq<T>)
    requires NoDuplicates(a) && NoDuplicates(b)
    requires forall v :: v in a ==> v !in b
    ensures NoDuplicates(a + b)
  {
    forall i, j | 0 <= i < j < |a + b|
      ensures (a + b)[i] != (a + b)[j]
    {
      if j < |a| {
      } else if i >= |a| {
        assert (a + b)[i] == b[i - |a|];
        assert (a + b)[j] == b[j - |a|];
      } else {
        assert (a + b)[i] in a;
        assert (a + b)[j] in b;
      }
    }
  }

  /** For d >= 1 the ring samples exactly the 8*d points at Chebyshev distance d from
      the center, each once: none from the interior. */
  lemma {:induction false} RingFacts(x: int, y: int, d: int)
    requires d >= 1
    ensures |Ring(x, y, d)| == 8 * d
    ensures forall p :: p in Ring(x, y, d) <==> Chebyshev(p, Pos(x, y)) == d
    ensures NoDuplicates(Ring(x, y, d))
  {
    var top, side := Horizontal(x, y, d, -d, d), Vertical(x, y, d, -d + 1, d - 1);
    HorizontalFacts(x, y, d, -d, d);
    VerticalFacts(x, y, d, -d + 1, d - 1);
    forall p
      ensures p in top + side <==> Chebyshev(p, Pos(x, y)) == d
    {
      RingMember(x, y, d, p);
    }
    AppendNoDuplicates(top, side);
  }

  /** The two sides of the ring, stated per point. */
  lemma RingMember(x: int, y: int, d: int, p: Pos)
    requires d >= 1
    ensures ((-d <= p.x - x <= d && (p.y == y - d || p.y == y + d))
             || (-d + 1 <= p.y - y <= d - 1 && (p.x == x - d || p.x == x + d)))
        <==> Chebyshev(p, Pos(x, y)) == d
  {
  }

  /** With d = 0 both loops degenerate: the first samples the center twice, the second nothing. */
  lemma RingZero(x: int, y: int)
    ensures Ring(x, y, 0) == [Pos(x, y), Pos(x, y)]
  {
    assert Horizontal(x, y, 0, 0, -1) == [];
  }

  /** A negative distance samples nothing. */
  lemma RingNegative(x: int, y: int, d: int)
    requires d < 0
    ensures Ring(x, y, d) == []
  {
  }

  // ---------------------------------------------------------------- filtering

  /** The elements of `s` that `keep` accepts, in their order in `s`: what a loop
      appending the accepted elements to a fresh list produces. */
  function Filter<T>(keep: T -> bool, s: seq<T>): seq<T>
  {
    if s == [] then []
    else Filter(keep, s[..|s| - 1]) + (if keep(s[|s| - 1]) then [s[|s| - 1]] else [])
  }

  lemma FilterAppend<T>(keep: T -> bool, s: seq<T>, v: T)
    ensures Filter(keep, s + [v]) == Filter(keep, s) + (if keep(v) then [v] else [])
  {
    assert (s + [v])[..|s|] == s;
  }

  /** Filtering two runs in a row is filtering each: one result list appended to by
      consecutive loops. */
  lemma {:induction false} FilterConcat<T>(keep: T -> bool, s: seq<T>, t: seq<T>)
    ensures Filter(keep, s + t) == Filter(keep, s) + Filter(keep, t)
  {
    if t == [] {
      assert s + t == s;
    } else {
      var init, last := t[..|t| - 1], t[|t| - 1];
      assert s + t == (s + init) + [last];
      FilterConcat(keep, s, init);
      FilterAppend(keep, s + init, last);
    }
  }

  /** The filter keeps exactly the accepted elements and never lengthens its input. */
  lemma {:induction false} FilterMembers<T>(keep: T -> bool, s: seq<T>)
    ensures forall v :: v in Filter(keep, s) ==> v in s && keep(v)
    ensures forall v :: v in s && keep(v) ==> v in Filter(keep, s)
    ensures |Filter(keep, s)| <= |s|
  {
    if s != [] {
      FilterMembers(keep, s[..|s| - 1]);
      assert s == s[..|s| - 1] + [s[|s| - 1]];
    }
  }

  /** The filter is a subsequence, so row-major order carries over. */
  lemma {:induction false} FilterRowMajor(keep: Pos -> bool, s: seq<Pos>)
    requires RowMajor(s)
    ensures RowMajor(Filter(keep, s))
  {
    if s != [] {
      var init := s[..|s| - 1];
      var last := s[|s| - 1];
      assert RowMajor(init);
      FilterRowMajor(keep, init);
      FilterMembers(keep, init);
      forall p, q | p in Filter(keep, init) && q in (if keep(last) then [last] else [])
        ensures Before(p, q)
      {
        var k :| 0 <= k < |init| && init[k] == p;
      }
      AppendRowMajor(Filter(keep, init), if keep(last) then [last] else []);
    }
  }

  lemma RowMajorNoDuplicates(s: seq<Pos>)
    requires RowMajor(s)
    ensures NoDuplicates(s)
  {
    forall i, j | 0 <= i < j < |s|
      ensures s[i] != s[j]
    {
      assert Before(s[i], s[j]);
    }
  }
}
