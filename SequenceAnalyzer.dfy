/** `searchAllComets` and `detectCometSpots` of analyze/SequenceAnalyzer.java: every
    image of a sequence is scanned for pixels that look like a comet in it but not in
    its two neighbouring images, and the candidates are concentrated into its spots. */
module SequenceAnalysis {
  import opened Sampling
  import IntPos
  import RealPos
  import CometScoring
  import Clusters
  import opened Optional

  /** The scan covers x, y = 0..1023 whatever the image size; pixels outside the image
      are read at the clamped coordinates. */
  const ScanSize := 1024

  /** The three score tests of `searchAllComets`, in the order the source evaluates
      them: a strong spot in this image, weak in the previous and in the next one. */
  predicate IsCandidate(prev: Grid, cur: Grid, next: Grid, x: int, y: int)
    requires CometScoring.IsImage(prev) && CometScoring.IsImage(cur) && CometScoring.IsImage(next)
  {
    CometScoring.Score(cur, x, y) >= 4.0
    && CometScoring.Score(prev, x, y) < 1.6
    && CometScoring.Score(next, x, y) < 1.6
  }

  function Candidate(prev: Grid, cur: Grid, next: Grid): IntPos.Pos -> bool
    requires CometScoring.IsImage(prev) && CometScoring.IsImage(cur) && CometScoring.IsImage(next)
  {
    (p: IntPos.Pos) => IsCandidate(prev, cur, next, p.x, p.y)
  }

  lemma CandidateAt(prev: Grid, cur: Grid, next: Grid, p: IntPos.Pos)
    requires CometScoring.IsImage(prev) && CometScoring.IsImage(cur) && CometScoring.IsImage(next)
    ensures Candidate(prev, cur, next)(p) == IsCandidate(prev, cur, next, p.x, p.y)
  {
  }

  /** `new Pos(x, y)`: the pixel coordinates as a double position. */
  function AsReal(ps: seq<IntPos.Pos>): (r: seq<RealPos.Pos>)
    ensures |r| == |ps|
  {
    seq(|ps|, k requires 0 <= k < |ps| => RealPos.Pos(ps[k].x as real, ps[k].y as real))
  }

  lemma AsRealConcat(a: seq<IntPos.Pos>, b: seq<IntPos.Pos>)
    ensures AsReal(a + b) == AsReal(a) + AsReal(b)
  {
    assert forall k :: 0 <= k < |a| + |b| ==> AsReal(a + b)[k] == (AsReal(a) + AsReal(b))[k];
  }

  /** The candidate pixels of the whole scan, in the order it appends them. */
  function Candidates(prev: Grid, cur: Grid, next: Grid): seq<RealPos.Pos>
    requires CometScoring.IsImage(prev) && CometScoring.IsImage(cur) && CometScoring.IsImage(next)
  {
    AsReal(Filter(Candidate(prev, cur, next), Rect(0, 0, ScanSize - 1, ScanSize - 1)))
  }

  /** Distinct pixels become distinct whole-number positions, and a position is in the
      result exactly when its pixel is in the input. */
  lemma AsRealFacts(found: seq<IntPos.Pos>)
    requires NoDuplicates(found)
    ensures forall x: int, y: int :: RealPos.Pos(x as real, y as real) in AsReal(found) <==> IntPos.Pos(x, y) in found
    ensures forall q :: q in AsReal(found) ==> q.x == q.x.Floor as real && q.y == q.y.Floor as real
    ensures NoDuplicates(AsReal(found))
  {
    var r := AsReal(found);
    forall x: int, y: int
      ensures RealPos.Pos(x as real, y as real) in r <==> IntPos.Pos(x, y) in found
    {
      if RealPos.Pos(x as real, y as real) in r {
        var k :| 0 <= k < |r| && r[k] == RealPos.Pos(x as real, y as real);
        assert found[k] == IntPos.Pos(x, y);
      }
      if IntPos.Pos(x, y) in found {
        var k :| 0 <= k < |found| && found[k] == IntPos.Pos(x, y);
        assert r[k] == RealPos.Pos(x as real, y as real);
      }
    }
    forall q | q in r
      ensures q.x == q.x.Floor as real && q.y == q.y.Floor as real
    {
      var k :| 0 <= k < |r| && r[k] == q;
    }
    forall i, j | 0 <= i < j < |r|
      ensures r[i] != r[j]
    {
      assert found[i] != found[j];
    }
  }

  /** Filtering the row-major scan of a w x h rectangle keeps each accepted pixel once. */
  lemma ScanFacts(keep: IntPos.Pos -> bool, w: int, h: int)
    ensures forall x: int, y: int :: RealPos.Pos(x as real, y as real) in AsReal(Filter(keep, Rect(0, 0, w - 1, h - 1))) <==>
              0 <= x < w && 0 <= y < h && keep(IntPos.Pos(x, y))
    ensures forall q :: q in AsReal(Filter(keep, Rect(0, 0, w - 1, h - 1))) ==> q.x == q.x.Floor as real && q.y == q.y.Floor as real
    ensures NoDuplicates(AsReal(Filter(keep, Rect(0, 0, w - 1, h - 1))))
  {
    var all := Rect(0, 0, w - 1, h - 1);
    RectFacts(0, 0, w - 1, h - 1);
    FilterMembers(keep, all);
    FilterRowMajor(keep, all);
    RowMajorNoDuplicates(Filter(keep, all));
    AsRealFacts(Filter(keep, all));
  }

  /** The scan reports exactly the pixels of 0..1023 x 0..1023 that pass the three
      tests, each once, at whole-number coordinates. */
  lemma CandidatesFacts(prev: Grid, cur: Grid, next: Grid)
    requires CometScoring.IsImage(prev) && CometScoring.IsImage(cur) && CometScoring.IsImage(next)
    ensures forall x: int, y: int :: RealPos.Pos(x as real, y as real) in Candidates(prev, cur, next) <==>
              0 <= x < ScanSize && 0 <= y < ScanSize && IsCandidate(prev, cur, next, x, y)
    ensures forall q :: q in Candidates(prev, cur, next) ==> q.x == q.x.Floor as real && q.y == q.y.Floor as real
    ensures NoDuplicates(Candidates(prev, cur, next))
  {
    var keep := Candidate(prev, cur, next);
    assert Candidates(prev, cur, next) == AsReal(Filter(keep, Rect(0, 0, ScanSize - 1, ScanSize - 1)));
    hide *;
    ScanFacts(keep, ScanSize, ScanSize);
    forall x: int, y: int
      ensures RealPos.Pos(x as real, y as real) in Candidates(prev, cur, next) <==>
                0 <= x < ScanSize && 0 <= y < ScanSize && IsCandidate(prev, cur, next, x, y)
    {
      CandidateAt(prev, cur, next, IntPos.Pos(x, y));
    }
  }

  /** A pixel must be weak in the previous image and strong in this one, so an image
      compared with an identical previous image yields no candidate: stationary
      objects such as stars are never reported. */
  lemma StationaryExcluded(prev: Grid, cur: Grid, next: Grid)
    requires CometScoring.IsImage(prev) && CometScoring.IsImage(cur) && CometScoring.IsImage(next)
    requires prev == cur
    ensures Candidates(prev, cur, next) == []
  {
    var keep, all := Candidate(prev, cur, next), Rect(0, 0, ScanSize - 1, ScanSize - 1);
    FilterMembers(keep, all);
    if Filter(keep, all) != [] {
      var p := Filter(keep, all)[0];
      CandidateAt(prev, cur, next, p);
      assert false;
    }
  }

  /** `searchAllComets(iaPrevious, iaThis, iaNext)`: the row-major scan; the inner
      loop over one row is `SearchRow`. */
  method SearchAllComets(prev: CometScoring.ImageAnalyzer, cur: CometScoring.ImageAnalyzer, next: CometScoring.ImageAnalyzer)
    returns (result: seq<RealPos.Pos>)
    requires prev.Valid() && cur.Valid() && next.Valid()
    ensures result == Candidates(prev.matrix, cur.matrix, next.matrix)
  {
    ghost var keep := Candidate(prev.matrix, cur.matrix, next.matrix);
    assert Candidates(prev.matrix, cur.matrix, next.matrix) == AsReal(Filter(keep, Rect(0, 0, ScanSize - 1, ScanSize - 1)));
    hide *;
    result := [];
    var y := 0;
    while y < ScanSize
      invariant 0 <= y <= ScanSize
      invariant result == AsReal(Filter(keep, Rect(0, 0, ScanSize - 1, y - 1)))
    {
      var row := SearchRow(prev, cur, next, y);
      FilterConcat(keep, Rect(0, 0, ScanSize - 1, y - 1), Row(0, ScanSize - 1, y));
      AsRealConcat(Filter(keep, Rect(0, 0, ScanSize - 1, y - 1)), Filter(keep, Row(0, ScanSize - 1, y)));
      result := result + row;
      y := y + 1;
    }
  }

  /** The inner loop of `searchAllComets` over x = 0..1023 of row y. The previous and
      next images are scored only when the earlier tests pass, as the `continue`s do. */
  method SearchRow(prev: CometScoring.ImageAnalyzer, cur: CometScoring.ImageAnalyzer, next: CometScoring.ImageAnalyzer, y: int)
    returns (row: seq<RealPos.Pos>)
    requires prev.Valid() && cur.Valid() && next.Valid()
    ensures row == AsReal(Filter(Candidate(prev.matrix, cur.matrix, next.matrix), Row(0, ScanSize - 1, y)))
  {
    hide CometScoring.Score;
    ghost var keep := Candidate(prev.matrix, cur.matrix, next.matrix);
    row := [];
    var x := 0;
    while x < ScanSize
      invariant 0 <= x <= ScanSize
      invariant row == AsReal(Filter(keep, Row(0, x - 1, y)))
    {
      var p := IntPos.Pos(x, y);
      CandidateAt(prev.matrix, cur.matrix, next.matrix, p);
      FilterAppend(keep, Row(0, x - 1, y), p);
      AsRealConcat(Filter(keep, Row(0, x - 1, y)), if keep(p) then [p] else []);
      var probaIsComet := cur.CheckComet(x, y);
      if probaIsComet >= 4.0 {
        var previousProba := prev.CheckComet(x, y);
        if previousProba < 1.6 {
          var nextProba := next.CheckComet(x, y);
          if nextProba < 1.6 {
            row := row + [RealPos.Pos(x as real, y as real)];
          }
        }
      }
      x := x + 1;
    }
  }

  // ---------------------------------------------------------------- the sequence

  /** The image used as the previous one of image i: the next image stands in for the
      missing previous image of the first. */
  function PrevIndex(n: int, i: int): (k: int)
    requires n >= 2 && 0 <= i < n
    ensures 0 <= k < n && (k == i - 1 || k == i + 1)
  {
    if i == 0 then 1 else i - 1
  }

  /** The image used as the next one of image i: the previous image stands in for the
      missing next image of the last. */
  function NextIndex(n: int, i: int): (k: int)
    requires n >= 2 && 0 <= i < n
    ensures 0 <= k < n && (k == i - 1 || k == i + 1)
  {
    if i == n - 1 then PrevIndex(n, i) else i + 1
  }

  /** Inside the sequence the window is the true neighbours; at each end the one
      neighbour serves on both sides. */
  lemma WindowFacts(n: int, i: int)
    requires n >= 2 && 0 <= i < n
    ensures 0 < i < n - 1 ==> PrevIndex(n, i) == i - 1 && NextIndex(n, i) == i + 1
    ensures i == 0 ==> PrevIndex(n, i) == NextIndex(n, i) == 1
    ensures i == n - 1 ==> PrevIndex(n, i) == NextIndex(n, i) == n - 2
  {
  }

  predicate AllValid(images: seq<CometScoring.ImageAnalyzer>)
  {
    forall k :: 0 <= k < |images| ==> images[k].Valid()
  }

  /** The spots `detectCometSpots` gives image i: the concentrated candidates of its
      window. */
  ghost function WindowSpots(images: seq<CometScoring.ImageAnalyzer>, i: int): seq<RealPos.Pos>
    requires |images| >= 2 && 0 <= i < |images| && AllValid(images)
  {
    var n := |images|;
    Clusters.Concentrated(Candidates(images[PrevIndex(n, i)].matrix, images[i].matrix, images[NextIndex(n, i)].matrix))
  }

  /** The spots of one image: the candidates of its window, concentrated into clusters. */
  method SearchWindow(images: seq<CometScoring.ImageAnalyzer>, i: int,
                      prev: CometScoring.ImageAnalyzer, cur: CometScoring.ImageAnalyzer, next: CometScoring.ImageAnalyzer)
    returns (spots: seq<RealPos.Pos>)
    requires |images| >= 2 && 0 <= i < |images| && AllValid(images)
    requires prev == images[PrevIndex(|images|, i)] && cur == images[i] && next == images[NextIndex(|images|, i)]
    ensures spots == WindowSpots(images, i)
  {
    var found := SearchAllComets(prev, cur, next);
    spots := Clusters.Concentrate(found, 2);
  }

  /** `detectCometSpots()`: one pass over the images carrying the previous, current and
      next image along; every image gets the spots of its window. */
  method DetectCometSpots(images: seq<CometScoring.ImageAnalyzer>)
    requires |images| >= 2 && AllValid(images) && NoDuplicates(images)
    modifies set k | 0 <= k < |images| :: images[k]
    ensures forall k :: 0 <= k < |images| ==> images[k].spots == Some(WindowSpots(images, k))
  {
    hide Candidates, Clusters.Concentrated, CometScoring.ImageAnalyzer.Valid;
    var n := |images|;
    var lastImage := images[1];
    var thisImage := images[0];
    var i := 0;
    while i < n
      invariant 0 <= i <= n
      invariant i < n ==> thisImage == images[i] && lastImage == images[PrevIndex(n, i)]
      invariant forall k :: 0 <= k < i ==> images[k].spots == Some(WindowSpots(images, k))
    {
      var nextImage := if i == n - 1 then lastImage else images[i + 1];
      assert nextImage == images[NextIndex(n, i)];
      var spots := SearchWindow(images, i, lastImage, thisImage, nextImage);
      thisImage.SetSpots(spots);
      lastImage := thisImage;
      thisImage := nextImage;
      i := i + 1;
    }
  }
}
