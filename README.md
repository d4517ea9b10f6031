# Comet finder: detection and tracking core, modelled in Dafny

This project models the deterministic core of a comet finder for sequences of
telescope images. Each image is a grid of 32-bit pixel values with a timestamp.
The finder works in three steps:

- **Scoring.** Every pixel is scored by how much its 3x3 block stands out from the
  square ring at distance 4. The score is checkComet in analyze/ImageAnalyzer.java,
  which reads pixels outside the image at the clamped border coordinates.
- **Candidates.** A pixel is a candidate in an image when it scores at least 4.0
  there and below 1.6 in the previous and the next image. At the two ends of the
  sequence the one neighbour serves on both sides.
- **Clusters and tracks.** Candidates within Manhattan distance 2 of each other,
  directly or through a chain, are merged into one cluster. Each cluster is replaced
  by its centroid. The resulting spots are then tracked from image to image:
  - every spot starts a path;
  - every path forks into one extension per spot that lies within Manhattan
    distance 5 of where the path's last velocity predicts;
  - a path that accepts no spot is kept when it has at least five positions.

The model also covers the older scorer of the root ImageAnalyzer.java. It reads
zero outside the image, tests for a "centre" whose rings get strictly darker
outwards, scans a whole image for centres, and can subtract a constant from every
pixel in place.

One Dafny module per source file, plus helper modules:

| module | file | models |
|---|---|---|
| JavaInt | JavaInt.dfy | Java `int`: truncating division, 32-bit wrap-around |
| MinMax | MinMaxCounter.dfy | MinMaxCounter.java: a `Stats` value with pure update and merge, and the mutable class |
| IntPos | IntPos.dfy | Pos.java: integer positions (value) and the mutable `add` |
| RealPos | RealPos.dfy | geometry/Pos.java: real positions, the distance to a line, the mutable `add` |
| Paths | CometPath.dfy | CometPath.java: the path value, `Extend`, and the class with its copy constructor |
| Sampling | Sampling.dfy | the coordinates the sampling loops visit (rectangle, ring) and row-major filtering |
| CometScoring | CometScoring.dfy | analyze/ImageAnalyzer.java |
| CentrumScoring | CentrumScoring.dfy | ImageAnalyzer.java (root package) |
| Clusters | Clusters.dfy | `concentrate` and `calcAveragePos` of analyze/SequenceAnalyzer.java |
| SequenceAnalysis | SequenceAnalyzer.dfy | `searchAllComets` and `detectCometSpots` |
| Tracker, CometTracking | Tracker.dfy, CometTracking.dfy | `detectCometPaths`, generic and instantiated with CometPath |

Every loop of the source is a Dafny method with a `while` loop, proved equal to a
specification function, with two exceptions. `calcMinMax` runs the same nested loops
as `countRange`, so CalcMinMax calls CountRange. The `forEach` that re-points a merged
cluster's members is a map comprehension, in Clusters.Join and in the loop of
Clusters.MergeCenter. The properties are proved as lemmas about those functions:

- A class's mutable fields are a `Value()` datatype. Its methods state the new value
  in terms of the old one.
- The pixel matrix of the root analyzer is an `array2` that `Sub` rewrites in place.
- The matrix of analyze/ImageAnalyzer.java is never written, so it is held as a
  grid value.

## Model

| member | source | states |
|---|---|---|
| JavaInt.Div | src/main/java/de/hechler/cometchallenge/MinMaxCounter.java:58 | Java's `/` rounds toward zero: the remainder is smaller than the divisor in magnitude and is zero or has the dividend's sign |
| JavaInt.DivNegate | src/main/java/de/hechler/cometchallenge/CometPath.java:33-34 | a negated dividend gives the negated quotient, which Euclidean division would not; lastDX and lastDY may be negative |
| JavaInt.DivMultiple | src/main/java/de/hechler/cometchallenge/CometPath.java:33-34 | dividing an exact multiple k*b by b gives k |
| JavaInt.DivBetween | src/main/java/de/hechler/cometchallenge/MinMaxCounter.java:57-59 | a total between n*lo and n*hi has its truncated quotient by n in lo..hi |
| JavaInt.Wrap32 | src/main/java/de/hechler/cometchallenge/analyze/ImageAnalyzer.java:142-143 | the stored int equals the exact value modulo 2^32, and equals it whenever the exact value fits in an int |
| MinMax.Observe | src/main/java/de/hechler/cometchallenge/MinMaxCounter.java:25-31 | after an update the sample lies between the new min and max; min never rises and max never falls; count grows by 1 and total by the sample |
| MinMax.FoldAppend | src/main/java/de/hechler/cometchallenge/MinMaxCounter.java:25-31 | folding one more sample is one more update |
| MinMax.FoldFresh | src/main/java/de/hechler/cometchallenge/MinMaxCounter.java:10-31 | samples folded into a fresh counter give their number as count and their sum as total; min and max bound every sample and are samples themselves; no samples leave the fresh counter |
| MinMax.MergeAssociative | src/main/java/de/hechler/cometchallenge/MinMaxCounter.java:33-39 | merging is associative on all four fields |
| MinMax.MergeCommutative | src/main/java/de/hechler/cometchallenge/MinMaxCounter.java:33-39 | merging is commutative on all four fields |
| MinMax.MergeFreshIdentity | src/main/java/de/hechler/cometchallenge/MinMaxCounter.java:10-39 | a fresh counter (MAX_VALUE, MIN_VALUE, 0, 0) is the identity of merging on both sides |
| MinMax.MergeSelf | src/main/java/de/hechler/cometchallenge/MinMaxCounter.java:33-39 | merging a counter with itself doubles count and total and keeps min and max |
| MinMax.ObserveIsMerge | src/main/java/de/hechler/cometchallenge/MinMaxCounter.java:25-39 | updating with a sample is merging with the counter of that one sample |
| MinMax.FoldConcat | src/main/java/de/hechler/cometchallenge/MinMaxCounter.java:25-39 | folding two runs in a row is merging the folds of the two runs |
| MinMax.FoldThen | src/main/java/de/hechler/cometchallenge/MinMaxCounter.java:25-31 | folding two runs in a row is folding the second into the counter of the first |
| MinMax.FreshConsistent | src/main/java/de/hechler/cometchallenge/MinMaxCounter.java:10-12 | the fresh counter satisfies the counter invariant: count 0 means fresh; otherwise min <= max and count*min <= total <= count*max |
| MinMax.ObserveConsistent | src/main/java/de/hechler/cometchallenge/MinMaxCounter.java:25-31 | an update keeps the counter invariant |
| MinMax.MergeConsistent | src/main/java/de/hechler/cometchallenge/MinMaxCounter.java:33-39 | merging two counters that satisfy the invariant gives one that does |
| MinMax.FoldConsistent | src/main/java/de/hechler/cometchallenge/MinMaxCounter.java:10-31 | every fold from a fresh counter satisfies the invariant |
| MinMax.AvgBetweenMinMax | src/main/java/de/hechler/cometchallenge/MinMaxCounter.java:57-59 | after at least one update, min <= getAvg() <= max |
| MinMax.AvgOfEqualSamples | src/main/java/de/hechler/cometchallenge/MinMaxCounter.java:57-59 | n equal samples have that sample as min, max and average |
| MinMax.Avg | src/main/java/de/hechler/cometchallenge/MinMaxCounter.java:57-59 | `getAvg` of a counter value: 0 for an empty counter, otherwise total/count truncated toward zero |
| MinMax.MinMaxCounter.GetMin | src/main/java/de/hechler/cometchallenge/MinMaxCounter.java:41-43 | the minimum; Integer.MAX_VALUE before the first update, at most the maximum after it |
| MinMax.MinMaxCounter.GetMax | src/main/java/de/hechler/cometchallenge/MinMaxCounter.java:45-47 | the maximum; Integer.MIN_VALUE before the first update, at least the minimum after it |
| MinMax.MinMaxCounter.GetTotal | src/main/java/de/hechler/cometchallenge/MinMaxCounter.java:49-51 | the total; 0 before the first update, between count*min and count*max after it |
| MinMax.MinMaxCounter.GetCount | src/main/java/de/hechler/cometchallenge/MinMaxCounter.java:53-55 | the number of samples, never negative |
| MinMax.MinMaxCounter.GetAvg | src/main/java/de/hechler/cometchallenge/MinMaxCounter.java:57-59 | 0 for an empty counter, otherwise total/count truncated toward zero; between min and max once a sample was seen |
| MinMax.MinMaxCounter.constructor | src/main/java/de/hechler/cometchallenge/MinMaxCounter.java:10-12 | a new counter is the fresh counter |
| MinMax.MinMaxCounter.Of | src/main/java/de/hechler/cometchallenge/MinMaxCounter.java:14-19 | the four fields are the arguments |
| MinMax.MinMaxCounter.Copy | src/main/java/de/hechler/cometchallenge/MinMaxCounter.java:21-23 | a new object with the same four fields |
| MinMax.MinMaxCounter.Update | src/main/java/de/hechler/cometchallenge/MinMaxCounter.java:25-31 | the counter becomes Observe of its old value, and the receiver itself is returned |
| MinMax.MinMaxCounter.UpdateFrom | src/main/java/de/hechler/cometchallenge/MinMaxCounter.java:33-39 | the counter becomes the merge of the old values of both; the argument is unchanged unless it is the receiver; the receiver is returned |
| IntPos.Pos.SQDist | src/main/java/de/hechler/cometchallenge/Pos.java:21-23 | the squared distance is non-negative and zero exactly for equal positions |
| IntPos.Pos.ManhattanDist | src/main/java/de/hechler/cometchallenge/Pos.java:29-31 | the Manhattan distance is non-negative and zero exactly for equal positions |
| IntPos.Pos.Equals | src/main/java/de/hechler/cometchallenge/Pos.java:38-46 | `equals` holds exactly when x and y both match |
| IntPos.DistSymmetric | src/main/java/de/hechler/cometchallenge/Pos.java:21-31 | both distances are symmetric |
| IntPos.ManhattanTriangle | src/main/java/de/hechler/cometchallenge/Pos.java:29-31 | the Manhattan distance satisfies the triangle inequality |
| IntPos.MutablePos.Origin | src/main/java/de/hechler/cometchallenge/Pos.java:10-12 | the default constructor gives (0, 0) |
| IntPos.MutablePos.constructor | src/main/java/de/hechler/cometchallenge/Pos.java:13-16 | the position holds the given coordinates |
| IntPos.MutablePos.Add | src/main/java/de/hechler/cometchallenge/Pos.java:47-50 | the receiver becomes the component-wise sum of the old values; the argument is unchanged unless it is the receiver |
| RealPos.Pos.SQDist | src/main/java/de/hechler/cometchallenge/geometry/Pos.java:21-23 | the squared distance is non-negative and zero for equal positions |
| RealPos.Pos.ManhattanDist | src/main/java/de/hechler/cometchallenge/geometry/Pos.java:29-31 | the Manhattan distance is non-negative and zero exactly for equal positions |
| RealPos.Pos.Equals | src/main/java/de/hechler/cometchallenge/geometry/Pos.java:60-68 | `equals` holds exactly when x and y both match |
| RealPos.Pos.SQDistFromLine | src/main/java/de/hechler/cometchallenge/geometry/Pos.java:33-47 | the squared distance to the line through p1 and p2 is never negative, and is the squared distance to p1 when the two line points coincide; the lemmas below give its other properties |
| RealPos.DistSymmetric | src/main/java/de/hechler/cometchallenge/geometry/Pos.java:21-31 | both distances are symmetric |
| RealPos.LineDegenerate | src/main/java/de/hechler/cometchallenge/geometry/Pos.java:42-45 | when the two line points coincide, the line distance is the squared distance to that point |
| RealPos.LineDistNonNegative | src/main/java/de/hechler/cometchallenge/geometry/Pos.java:41-46 | the squared line distance is never negative |
| RealPos.PointOnLine | src/main/java/de/hechler/cometchallenge/geometry/Pos.java:33-47 | every point p1 + k*(p2 - p1) of the line has line distance 0 |
| RealPos.EndpointsOnLine | src/main/java/de/hechler/cometchallenge/geometry/Pos.java:41-46 | both line points have line distance 0 |
| RealPos.LineSwap | src/main/java/de/hechler/cometchallenge/geometry/Pos.java:41-46 | swapping the two line points does not change the line distance |
| RealPos.CrossAtMost | src/main/java/de/hechler/cometchallenge/geometry/Pos.java:41-42 | numerator squared is at most the denominator times the squared distance to the first line point |
| RealPos.LineDistAtMostPointDist | src/main/java/de/hechler/cometchallenge/geometry/Pos.java:33-47 | the distance to the line is at most the distance to its first point |
| RealPos.MutablePos.Origin | src/main/java/de/hechler/cometchallenge/geometry/Pos.java:10-12 | the default constructor gives (0, 0) |
| RealPos.MutablePos.constructor | src/main/java/de/hechler/cometchallenge/geometry/Pos.java:13-16 | the position holds the given coordinates |
| RealPos.MutablePos.Add | src/main/java/de/hechler/cometchallenge/geometry/Pos.java:69-72 | the receiver becomes the component-wise sum |
| Paths.Start | src/main/java/de/hechler/cometchallenge/CometPath.java:14-20 | a new path has exactly the one given position and zero lastDX, lastDY, lastDT |
| Paths.Extend | src/main/java/de/hechler/cometchallenge/CometPath.java:29-49 | no result (null) exactly when the path has two or more positions and the spot lies more than 5 from the prediction; otherwise the path with the spot appended and the last step recorded |
| Paths.StartWellFormed | src/main/java/de/hechler/cometchallenge/CometPath.java:14-20 | a new path is well-formed and has length 1 |
| Paths.ExtendWellFormed | src/main/java/de/hechler/cometchallenge/CometPath.java:43-47 | an accepted extension is well-formed and one longer; it keeps the old positions as a prefix, ends at the new spot, and has lastDT = the time step > 0 |
| Paths.SingleAcceptsAll | src/main/java/de/hechler/cometchallenge/CometPath.java:30-44 | a path of length 1 accepts every spot and becomes a path of length 2 |
| Paths.ToleranceBoundary | src/main/java/de/hechler/cometchallenge/CometPath.java:36-41 | with two or more positions, a spot at distance 5 from the prediction is accepted and one at distance 6 rejected |
| Paths.ConstantVelocityAccepted | src/main/java/de/hechler/cometchallenge/CometPath.java:32-41 | with an equal time step, the spot continuing the last displacement is the prediction itself and is accepted |
| Paths.CometPath.constructor | src/main/java/de/hechler/cometchallenge/CometPath.java:14-20 | the new object holds Start(t, p) |
| Paths.CometPath.Copy | src/main/java/de/hechler/cometchallenge/CometPath.java:22-27 | the copy holds the same positions and last step |
| Paths.CometPath.CreateNewIfInRange | src/main/java/de/hechler/cometchallenge/CometPath.java:29-49 | null exactly when Extend rejects; otherwise a fresh path holding Extend's result, the receiver unchanged |
| Paths.CometPath.GetLength | src/main/java/de/hechler/cometchallenge/CometPath.java:51-53 | the number of positions |
| Sampling.RowFacts | src/main/java/de/hechler/cometchallenge/analyze/ImageAnalyzer.java:96-98 | the inner loop visits toX-fromX+1 points, exactly those of the row between fromX and toX, left to right |
| Sampling.RectFacts | src/main/java/de/hechler/cometchallenge/analyze/ImageAnalyzer.java:93-101 | the nested loops visit (toX-fromX+1)*(toY-fromY+1) points, exactly those of the inclusive rectangle, each once, in row-major order |
| Sampling.HorizontalFacts | src/main/java/de/hechler/cometchallenge/analyze/ImageAnalyzer.java:74-77 | the first ring loop visits 2 points per step, exactly those on the top and bottom rows, each once |
| Sampling.VerticalFacts | src/main/java/de/hechler/cometchallenge/analyze/ImageAnalyzer.java:78-81 | the second ring loop visits 2 points per step, exactly those on the left and right columns, each once |
| Sampling.RingFacts | src/main/java/de/hechler/cometchallenge/analyze/ImageAnalyzer.java:72-83 | for d >= 1 the ring samples 8*d points, exactly those at Chebyshev distance d, each once, none from the interior |
| Sampling.RingMember | src/main/java/de/hechler/cometchallenge/analyze/ImageAnalyzer.java:72-83 | a point is on one of the two loops' sides exactly when it is at Chebyshev distance d |
| Sampling.RingZero | src/main/java/de/hechler/cometchallenge/analyze/ImageAnalyzer.java:72-83 | with d = 0 the centre is sampled twice and nothing else |
| Sampling.RingNegative | src/main/java/de/hechler/cometchallenge/analyze/ImageAnalyzer.java:72-83 | with d < 0 nothing is sampled |
| Sampling.FilterAppend | src/main/java/de/hechler/cometchallenge/ImageAnalyzer.java:98-100 | one more visited point adds it to the result exactly when it passes the test |
| Sampling.FilterConcat | src/main/java/de/hechler/cometchallenge/ImageAnalyzer.java:96-102 | filtering consecutive runs is filtering each run and concatenating |
| Sampling.FilterMembers | src/main/java/de/hechler/cometchallenge/ImageAnalyzer.java:94-104 | the result holds exactly the visited points that pass the test and is never longer than the input |
| Sampling.FilterRowMajor | src/main/java/de/hechler/cometchallenge/ImageAnalyzer.java:94-104 | filtering a row-major sequence gives a row-major sequence |
| Sampling.RowMajorNoDuplicates | src/main/java/de/hechler/cometchallenge/ImageAnalyzer.java:96-102 | a row-major sequence has no duplicates |
| CometScoring.ClampedGet | src/main/java/de/hechler/cometchallenge/analyze/ImageAnalyzer.java:56-63 | the pixel itself inside the image; outside, the pixel at the clamped coordinates |
| CometScoring.ClampNearest | src/main/java/de/hechler/cometchallenge/analyze/ImageAnalyzer.java:60-61 | the clamped coordinate lies in 0..n-1, is the coordinate itself when that is inside, and is the nearest coordinate inside |
| CometScoring.RatioThreshold | src/main/java/de/hechler/cometchallenge/analyze/ImageAnalyzer.java:144-145 | with a positive denominator, a threshold on the ratio is the integer comparison centerDist >= t*outerDist |
| CometScoring.WindowSizes | src/main/java/de/hechler/cometchallenge/analyze/ImageAnalyzer.java:137-139 | the centre block has 9 samples and ring 4 has 32 |
| CometScoring.SamplesNonNegative | src/main/java/de/hechler/cometchallenge/analyze/ImageAnalyzer.java:56-63 | on an image without negative pixels every pixel `get` returns is non-negative |
| CometScoring.OuterDistNonNegative | src/main/java/de/hechler/cometchallenge/analyze/ImageAnalyzer.java:142-143 | the ring-4 average is at least the ring-4 minimum; on an image without negative pixels outerDist >= 0 |
| CometScoring.FlatScoresZero | src/main/java/de/hechler/cometchallenge/analyze/ImageAnalyzer.java:137-146 | on a constant image both differences are 0 and the score is 0 everywhere |
| CometScoring.RowAccFold | src/main/java/de/hechler/cometchallenge/analyze/ImageAnalyzer.java:96-98 | the counter after the inner loop's steps is the fold of the pixels of the row visited so far |
| CometScoring.RangeAccFold | src/main/java/de/hechler/cometchallenge/analyze/ImageAnalyzer.java:95-99 | the counter after the outer loop's steps is the fold of the rows visited so far |
| CometScoring.RangeAccDone | src/main/java/de/hechler/cometchallenge/analyze/ImageAnalyzer.java:93-101 | where the outer loop stops, the counter is the rectangle's |
| CometScoring.TopAccFold | src/main/java/de/hechler/cometchallenge/analyze/ImageAnalyzer.java:74-77 | the counter after the first ring loop's steps is the fold of the points visited so far |
| CometScoring.SideAccFold | src/main/java/de/hechler/cometchallenge/analyze/ImageAnalyzer.java:78-81 | the counter after the second ring loop's steps is the fold of the points visited so far |
| CometScoring.TopAccDone | src/main/java/de/hechler/cometchallenge/analyze/ImageAnalyzer.java:74-77 | where the first loop stops, the top and bottom rows are sampled |
| CometScoring.SideAccDone | src/main/java/de/hechler/cometchallenge/analyze/ImageAnalyzer.java:78-81 | where the second loop stops, the left and right columns are sampled |
| CometScoring.RingAccDone | src/main/java/de/hechler/cometchallenge/analyze/ImageAnalyzer.java:72-83 | after both loops the counter is the ring's, also for d <= 0 |
| CometScoring.ImageAnalyzer.constructor | src/main/java/de/hechler/cometchallenge/analyze/ImageAnalyzer.java:32-42 | timestamp and matrix as given, height the number of rows, width the first row's length, no spots yet |
| CometScoring.ImageAnalyzer.Get | src/main/java/de/hechler/cometchallenge/analyze/ImageAnalyzer.java:56-63 | `get` is the clamped read and never indexes outside the matrix |
| CometScoring.ImageAnalyzer.CountNeighbours | src/main/java/de/hechler/cometchallenge/analyze/ImageAnalyzer.java:72-83 | a fresh counter holding the statistics of the ring's pixels |
| CometScoring.ImageAnalyzer.CountTopBottom | src/main/java/de/hechler/cometchallenge/analyze/ImageAnalyzer.java:74-77 | the first loop's exit value and the counter after it |
| CometScoring.ImageAnalyzer.CountLeftRight | src/main/java/de/hechler/cometchallenge/analyze/ImageAnalyzer.java:78-81 | the second loop's exit value and the counter after it |
| CometScoring.ImageAnalyzer.CountRange | src/main/java/de/hechler/cometchallenge/analyze/ImageAnalyzer.java:93-101 | a fresh counter holding the statistics of the rectangle's pixels |
| CometScoring.ImageAnalyzer.CalcMinMax | src/main/java/de/hechler/cometchallenge/analyze/ImageAnalyzer.java:127-135 | the same statistics as countRange |
| CometScoring.ImageAnalyzer.CheckComet | src/main/java/de/hechler/cometchallenge/analyze/ImageAnalyzer.java:137-146 | the score: centerDist when outerDist is 0, centerDist/outerDist otherwise |
| CometScoring.ImageAnalyzer.SetSpots | src/main/java/de/hechler/cometchallenge/analyze/ImageAnalyzer.java:52-53 | the spots are the given list afterwards, so `getSpots` returns it; the matrix is a constant |
| CometScoring.ImageAnalyzer.GetSpots | src/main/java/de/hechler/cometchallenge/analyze/ImageAnalyzer.java:53 | the stored spots: None (null) until `setSpots` runs, then the list it was given |
| CentrumScoring.PaddedGet | src/main/java/de/hechler/cometchallenge/ImageAnalyzer.java:23-28 | the pixel inside the image, 0 outside |
| CentrumScoring.Shifted | src/main/java/de/hechler/cometchallenge/ImageAnalyzer.java:106-112 | `sub` leaves the number of rows and every row's length unchanged |
| CentrumScoring.RowAccFold | src/main/java/de/hechler/cometchallenge/ImageAnalyzer.java:46-48 | the counter after the inner loop's steps is the fold of the row's pixels visited so far |
| CentrumScoring.RangeAccFold | src/main/java/de/hechler/cometchallenge/ImageAnalyzer.java:45-49 | the counter after the outer loop's steps is the fold of the rows visited so far |
| CentrumScoring.RangeAccDone | src/main/java/de/hechler/cometchallenge/ImageAnalyzer.java:43-51 | where the outer loop stops, the counter is the rectangle's |
| CentrumScoring.TopAccFold | src/main/java/de/hechler/cometchallenge/ImageAnalyzer.java:32-35 | the counter after the first ring loop's steps is the fold of the points visited so far |
| CentrumScoring.SideAccFold | src/main/java/de/hechler/cometchallenge/ImageAnalyzer.java:36-39 | the counter after the second ring loop's steps is the fold of the points visited so far |
| CentrumScoring.TopAccDone | src/main/java/de/hechler/cometchallenge/ImageAnalyzer.java:32-35 | where the first loop stops, the top and bottom rows are sampled |
| CentrumScoring.SideAccDone | src/main/java/de/hechler/cometchallenge/ImageAnalyzer.java:36-39 | where the second loop stops, the left and right columns are sampled |
| CentrumScoring.RingAccDone | src/main/java/de/hechler/cometchallenge/ImageAnalyzer.java:30-41 | after both loops the counter is the ring's |
| CentrumScoring.CentrumDominates | src/main/java/de/hechler/cometchallenge/ImageAnalyzer.java:55-81 | at a centre, every ring-4 pixel is at most the centre pixel and at most every ring-1 pixel |
| CentrumScoring.FallsTransitive | src/main/java/de/hechler/cometchallenge/ImageAnalyzer.java:60-77 | strict falls in min, max and average chain from ring to ring |
| CentrumScoring.RingInside | src/main/java/de/hechler/cometchallenge/ImageAnalyzer.java:23-41 | for a pixel at least d from the border, all ring-d samples are read inside the image |
| CentrumScoring.FlatHasNoCentrum | src/main/java/de/hechler/cometchallenge/ImageAnalyzer.java:54-92 | on a constant image no pixel at least 4 from the border is a centre |
| CentrumScoring.SamplesShifted | src/main/java/de/hechler/cometchallenge/ImageAnalyzer.java:106-112 | after `sub(n)` each in-image sample is the old sample minus n, where that does not wrap |
| CentrumScoring.SubShiftsRing | src/main/java/de/hechler/cometchallenge/ImageAnalyzer.java:106-112 | for a pixel at least d from the border, `sub(n)` lowers the ring's min and max by n and its total by 8*d*n |
| CentrumScoring.FindCentersFacts | src/main/java/de/hechler/cometchallenge/ImageAnalyzer.java:94-104 | the scan returns exactly the in-image positions that are centres, in row-major order, without duplicates |
| CentrumScoring.ImageAnalyzer.constructor | src/main/java/de/hechler/cometchallenge/ImageAnalyzer.java:17-21 | the matrix is shared, not copied; height and width are its dimensions |
| CentrumScoring.ImageAnalyzer.Get | src/main/java/de/hechler/cometchallenge/ImageAnalyzer.java:23-28 | `get` is the zero-padded read |
| CentrumScoring.ImageAnalyzer.CountNeighbours | src/main/java/de/hechler/cometchallenge/ImageAnalyzer.java:30-41 | a fresh counter holding the statistics of the ring's padded pixels |
| CentrumScoring.ImageAnalyzer.CountTopBottom | src/main/java/de/hechler/cometchallenge/ImageAnalyzer.java:32-35 | the first loop's exit value and the counter after it |
| CentrumScoring.ImageAnalyzer.CountLeftRight | src/main/java/de/hechler/cometchallenge/ImageAnalyzer.java:36-39 | the second loop's exit value and the counter after it |
| CentrumScoring.ImageAnalyzer.CountRange | src/main/java/de/hechler/cometchallenge/ImageAnalyzer.java:43-51 | a fresh counter holding the statistics of the rectangle's padded pixels |
| CentrumScoring.ImageAnalyzer.CheckCentrum | src/main/java/de/hechler/cometchallenge/ImageAnalyzer.java:54-92 | the early-exit chain returns true exactly when the pixel is a centre |
| CentrumScoring.ImageAnalyzer.FindCenters | src/main/java/de/hechler/cometchallenge/ImageAnalyzer.java:94-104 | the scan's result is the row-major filter of the image by the centre test |
| CentrumScoring.ImageAnalyzer.ScanRow | src/main/java/de/hechler/cometchallenge/ImageAnalyzer.java:97-101 | the inner loop appends the centres of one row, left to right |
| CentrumScoring.ImageAnalyzer.Sub | src/main/java/de/hechler/cometchallenge/ImageAnalyzer.java:106-112 | every pixel is lowered by n with int wrap-around; nothing else changes |
| Tracker.Seeds | src/main/java/de/hechler/cometchallenge/analyze/SequenceAnalyzer.java:136-138 | one new path per spot, in spot order |
| Tracker.Children | src/main/java/de/hechler/cometchallenge/analyze/SequenceAnalyzer.java:141-147 | at most one descendant per spot; none exactly when no spot is accepted |
| Tracker.ArchivedLong | src/main/java/de/hechler/cometchallenge/analyze/SequenceAnalyzer.java:148-152 | an archived path was live and has length >= 5 |
| Tracker.TrackFinishedLong | src/main/java/de/hechler/cometchallenge/analyze/SequenceAnalyzer.java:130-154 | after any number of frames every archived path has length >= 5 |
| Tracker.DetectedLong | src/main/java/de/hechler/cometchallenge/analyze/SequenceAnalyzer.java:148-160 | every returned path has length >= 5 |
| Tracker.TrackStep | src/main/java/de/hechler/cometchallenge/analyze/SequenceAnalyzer.java:130-154 | one more frame: new live paths are the seeds then the forks; archived paths grow by those that found no spot and are long enough |
| Tracker.ForksStep | src/main/java/de/hechler/cometchallenge/analyze/SequenceAnalyzer.java:139-153 | one more live path adds its descendants to the forks, and itself to the archive when it found none and is long enough |
| Tracker.ChildrenFrom | src/main/java/de/hechler/cometchallenge/analyze/SequenceAnalyzer.java:141-147 | every descendant is the accepted extension by one of the spots |
| Tracker.ForksFrom | src/main/java/de/hechler/cometchallenge/analyze/SequenceAnalyzer.java:134-153 | every forked path extends a previously live path by a spot of the frame |
| Tracker.DetectCometPaths | src/main/java/de/hechler/cometchallenge/analyze/SequenceAnalyzer.java:125-161 | the loop returns the archived paths followed by the surviving live paths of length >= 5 |
| Tracker.ForkAll | src/main/java/de/hechler/cometchallenge/analyze/SequenceAnalyzer.java:139-153 | the loop over the previous live paths gives their forks and the paths to archive |
| Tracker.SeedPaths | src/main/java/de/hechler/cometchallenge/analyze/SequenceAnalyzer.java:136-138 | the loop over the spots gives one new path per spot |
| Tracker.ForkPath | src/main/java/de/hechler/cometchallenge/analyze/SequenceAnalyzer.java:140-147 | the loop over the spots gives the accepted extensions in spot order |
| CometTracking.SeedsLive | src/main/java/de/hechler/cometchallenge/analyze/SequenceAnalyzer.java:136-138 | new paths are well-formed and end at the frame's time |
| CometTracking.ForksLive | src/main/java/de/hechler/cometchallenge/analyze/SequenceAnalyzer.java:139-147 | forks of well-formed paths of an earlier frame are well-formed and end at the new frame's time |
| CometTracking.TrackedWellFormed | src/main/java/de/hechler/cometchallenge/analyze/SequenceAnalyzer.java:130-154 | with increasing timestamps, live paths are well-formed and end at the latest frame, and archived paths are well-formed |
| CometTracking.GuardNeverFires | src/main/java/de/hechler/cometchallenge/analyze/SequenceAnalyzer.java:142 | with increasing timestamps, every `createNewIfInRange` call gets a later time than the path's last position, so a longer path never divides by lastDT == 0 |
| CometTracking.DetectedPaths | src/main/java/de/hechler/cometchallenge/analyze/SequenceAnalyzer.java:125-161 | every returned path is well-formed, in increasing time order, with at least 5 positions |
| Clusters.AdjacentSymmetric | src/main/java/de/hechler/cometchallenge/analyze/SequenceAnalyzer.java:205 | the merge test is symmetric |
| Clusters.Distinct | src/main/java/de/hechler/cometchallenge/analyze/SequenceAnalyzer.java:192 | the LinkedHashSet holds the same values as the list, each once, and is no longer |
| Clusters.DistinctOrder | src/main/java/de/hechler/cometchallenge/analyze/SequenceAnalyzer.java:192 | its iteration order is the order of first occurrence in the list |
| Clusters.DistinctOfDistinct | src/main/java/de/hechler/cometchallenge/analyze/SequenceAnalyzer.java:192 | a list without duplicates keeps its order |
| Clusters.DistinctConstant | src/main/java/de/hechler/cometchallenge/analyze/SequenceAnalyzer.java:213-215 | a list of one repeated value becomes that one value |
| Clusters.Join | src/main/java/de/hechler/cometchallenge/analyze/SequenceAnalyzer.java:206-209 | merging two clusters keeps the map's keys |
| Clusters.JoinFacts | src/main/java/de/hechler/cometchallenge/analyze/SequenceAnalyzer.java:206-209 | a merge keeps the partition; both centres map to the union of their clusters; clusters are never split; other clusters are unchanged |
| Clusters.JoinConnected | src/main/java/de/hechler/cometchallenge/analyze/SequenceAnalyzer.java:205-209 | merging the clusters of two adjacent centres keeps every cluster connected |
| Clusters.UnionConnected | src/main/java/de/hechler/cometchallenge/analyze/SequenceAnalyzer.java:205-209 | two connected sets linked by an adjacent pair form a connected set |
| Clusters.SingletonConnected | src/main/java/de/hechler/cometchallenge/analyze/SequenceAnalyzer.java:194-198 | the initial one-element clusters are connected |
| Clusters.MergeWith | src/main/java/de/hechler/cometchallenge/analyze/SequenceAnalyzer.java:202-211 | the inner loop keeps the map's keys |
| Clusters.MergeWithFacts | src/main/java/de/hechler/cometchallenge/analyze/SequenceAnalyzer.java:202-211 | the inner loop keeps the partition and connected clusters, never splits a cluster, and puts the centre with every later adjacent centre |
| Clusters.MergeAll | src/main/java/de/hechler/cometchallenge/analyze/SequenceAnalyzer.java:199-212 | the outer loop keeps the map's keys |
| Clusters.MergeAllFacts | src/main/java/de/hechler/cometchallenge/analyze/SequenceAnalyzer.java:199-212 | the outer loop ends with a partition closed under adjacency, with connected clusters |
| Clusters.Clustering | src/main/java/de/hechler/cometchallenge/analyze/SequenceAnalyzer.java:191-212 | the keys are exactly the distinct centres, and the clusters partition them |
| Clusters.ClusteringFacts | src/main/java/de/hechler/cometchallenge/analyze/SequenceAnalyzer.java:191-212 | the clusters are closed under "Manhattan distance <= 2" and connected |
| Clusters.ClassInside | src/main/java/de/hechler/cometchallenge/analyze/SequenceAnalyzer.java:191-212 | a connected cluster lies inside the cluster of any closed partition of the same centres |
| Clusters.ClustersUnique | src/main/java/de/hechler/cometchallenge/analyze/SequenceAnalyzer.java:191-212 | two closed partitions into connected clusters are equal, so the clusters are the connected components whatever the merge order |
| Clusters.ThreeChained | src/main/java/de/hechler/cometchallenge/analyze/SequenceAnalyzer.java:199-212 | three centres chained by adjacency share one cluster in any closed partition |
| Clusters.ChainClustering | src/main/java/de/hechler/cometchallenge/analyze/SequenceAnalyzer.java:191-212 | (0,0), (2,0), (4,0) end up in one cluster although the ends are 4 apart |
| Clusters.TotalRemove | src/main/java/de/hechler/cometchallenge/analyze/SequenceAnalyzer.java:222-223 | the set's sum does not depend on the order the members are added in |
| Clusters.CentroidFacts | src/main/java/de/hechler/cometchallenge/analyze/SequenceAnalyzer.java:218-226 | a singleton gives its member; otherwise the mean shifted by (n/2)/n in both coordinates, n/2 an integer quotient |
| Clusters.ChainCentroid | src/main/java/de/hechler/cometchallenge/analyze/SequenceAnalyzer.java:218-226 | the centroid of the chain is (7/3, 1/3) |
| Clusters.CentroidsMembers | src/main/java/de/hechler/cometchallenge/analyze/SequenceAnalyzer.java:213-215 | the collected centroids are exactly the centroids of the keys' clusters |
| Clusters.ConcentratedFacts | src/main/java/de/hechler/cometchallenge/analyze/SequenceAnalyzer.java:191-216 | the result has no duplicates and at most one entry per distinct input, and consists exactly of the centroids of the inputs' clusters |
| Clusters.SeparatedUnchanged | src/main/java/de/hechler/cometchallenge/analyze/SequenceAnalyzer.java:191-216 | spots pairwise more than 2 apart come back unchanged, duplicates removed |
| Clusters.ChainIsOneCluster | src/main/java/de/hechler/cometchallenge/analyze/SequenceAnalyzer.java:191-216 | the chain (0,0), (2,0), (4,0) comes back as the single spot (7/3, 1/3) |
| Clusters.CalcAveragePos | src/main/java/de/hechler/cometchallenge/analyze/SequenceAnalyzer.java:218-226 | the method returns the set's centroid |
| Clusters.Sum | src/main/java/de/hechler/cometchallenge/analyze/SequenceAnalyzer.java:222-223 | the running sum ends as the sum of the set |
| Clusters.PutSingletons | src/main/java/de/hechler/cometchallenge/analyze/SequenceAnalyzer.java:194-198 | every distinct centre is put with its one-element cluster |
| Clusters.MergeCenter | src/main/java/de/hechler/cometchallenge/analyze/SequenceAnalyzer.java:202-211 | the inner loop computes MergeWith |
| Clusters.AverageAll | src/main/java/de/hechler/cometchallenge/analyze/SequenceAnalyzer.java:213-215 | the clusters' centroids in key order, each once |
| Clusters.Concentrate | src/main/java/de/hechler/cometchallenge/analyze/SequenceAnalyzer.java:191-216 | the method returns Concentrated(centers) |
| SequenceAnalysis.AsRealFacts | src/main/java/de/hechler/cometchallenge/analyze/SequenceAnalyzer.java:297 | distinct pixels become distinct whole-number positions, and a position is present exactly when its pixel is |
| SequenceAnalysis.ScanFacts | src/main/java/de/hechler/cometchallenge/analyze/SequenceAnalyzer.java:282-299 | filtering the row-major scan of a w x h rectangle yields every accepted pixel exactly once |
| SequenceAnalysis.CandidatesFacts | src/main/java/de/hechler/cometchallenge/analyze/SequenceAnalyzer.java:280-300 | (x, y) is reported exactly when 0 <= x, y < 1024 and it scores >= 4.0 in this image and < 1.6 in both neighbours; each once, at whole-number coordinates |
| SequenceAnalysis.StationaryExcluded | src/main/java/de/hechler/cometchallenge/analyze/SequenceAnalyzer.java:285-292 | an image compared with an identical previous image yields no candidates |
| SequenceAnalysis.SearchAllComets | src/main/java/de/hechler/cometchallenge/analyze/SequenceAnalyzer.java:280-300 | the nested scan returns the candidates in row-major order |
| SequenceAnalysis.SearchRow | src/main/java/de/hechler/cometchallenge/analyze/SequenceAnalyzer.java:283-298 | the inner loop appends the candidates of one row, scoring the neighbours only when the earlier tests pass |
| SequenceAnalysis.PrevIndex | src/main/java/de/hechler/cometchallenge/analyze/SequenceAnalyzer.java:101-121 | the previous image is a true neighbour (index i-1 or i+1) inside the sequence |
| SequenceAnalysis.NextIndex | src/main/java/de/hechler/cometchallenge/analyze/SequenceAnalyzer.java:105-111 | the next image is a true neighbour (index i-1 or i+1) inside the sequence |
| SequenceAnalysis.WindowFacts | src/main/java/de/hechler/cometchallenge/analyze/SequenceAnalyzer.java:97-123 | inside the sequence the window is (i-1, i+1); the first image uses image 1 on both sides, the last image uses image n-2 on both sides |
| SequenceAnalysis.SearchWindow | src/main/java/de/hechler/cometchallenge/analyze/SequenceAnalyzer.java:114-115 | the spots of one image are the concentrated candidates of its window |
| SequenceAnalysis.DetectCometSpots | src/main/java/de/hechler/cometchallenge/analyze/SequenceAnalyzer.java:97-123 | every image's spots are set to the concentrated candidates of its window |

## Left out

- Reading images is not modelled: `readSequence`, the FITS decoding and the file-name regular expressions. Images enter the model as grids and timestamps.
- `writeCSV` is not modelled (file output). `detectCometSpots` is modelled without it.
- The GUI, `createBufferedImage`, `createSpots`, `scale`, `showRange` and logging are display code and not modelled.
- MinMaxStat.java, `getDist`, `getDistFromLine` and `getDAvg` are not modelled. They compute square roots and double averages for display.
- `hashCode` is not modelled (a library hash). Positions are values, so sets and maps compare them as `equals` does.
- Doubles are exact reals. The candidate score, the line distance and the centroid therefore ignore rounding. In particular, a sum of positions does not depend on the order of addition.
- MinMax.Observe: count and total are unbounded integers, not 32-bit `int`s. Totals beyond the `int` range, which Java would wrap, are not modelled.
- IntPos.Pos.SQDist: coordinates are unbounded. Java's `int` overflow of the squared distance is not modelled. The same holds for Manhattan distances and for the positions in CometPath.java, whose `long` arithmetic is exact here. The `(int)` cast of the predicted displacement is modelled with 32-bit wrap-around.
- RealPos.Pos.SQDist: states only that equal points have distance 0, not the converse. The converse needs nonlinear real reasoning the solver does not complete.
- RealPos.LineSwap: assumes the two line points are equal or have a non-zero squared distance. With exact reals this always holds; with doubles an underflowing product can break it.
- CometScoring.OuterDistNonNegative: proves outerDist >= 0 only for images without negative pixels. With negative pixels the `int` subtraction can wrap.
- SequenceAnalysis.DetectCometSpots: requires at least two images; with fewer, `images.get(1)` throws and there is no result to model.
- SequenceAnalysis.DetectCometSpots: requires the images to be distinct objects, as the loading code creates them. A list holding one analyzer twice would have its spots overwritten by the later window.
- The root ImageAnalyzer's constructor requires a matrix with at least one row (`matrix[0]` throws otherwise). analyze/ImageAnalyzer.java's `get` also needs a non-empty first row.
- Clusters.CalcAveragePos: requires a non-empty set. `concentrate` only passes clusters, which always hold their own key; an empty set would give NaN in Java.
- Clusters.Concentrate: the `mhDist` argument is accepted and ignored, as in the source. The threshold 2 is fixed.
- Cluster sets are values. A merge gives every member of the two clusters the union, which is what the one shared `HashSet` per cluster amounts to under the Partitioned invariant. Aliasing of the set objects is not modelled beyond that.
- The tracker is generic in the path and spot types. CometTracking instantiates it with integer positions, because CometPath.java uses the integer Pos. In the source, `detectCometPaths` passes the double-valued spots of geometry/Pos.java, which does not type-check against CometPath as shown. The tracker takes (timestamp, spots) frames rather than the analyzers themselves.
- Paths.Extend: requires a later time than the path's last position, which Java never checks. Java accepts an earlier or equal time and extrapolates the prediction backwards. It throws only on a longer path whose previous step had lastDT == 0, that is, after an extension at an equal time. The model therefore excludes non-increasing times. The increasing order of the images' timestamps rests on `readSequence`, which is not modelled. Its pattern `YYYY-MM-dd HH:mm:ss` reads `YYYY` as the week-year, which can drop month and day and so break that order.
- CometScoring.ImageAnalyzer.CalcMinMax: calls CountRange instead of repeating its nested loops, which are the same loops with the same result.
- Clusters.Join: the `forEach` that points every member of the absorbed cluster at the merged set is a map comprehension, not a loop, here and in Clusters.MergeCenter; the order of those updates does not affect the result.
- Inner loops are separate helper methods, each proved against its specification function, to keep every proof small: ScanRow, SearchRow, CountTopBottom, CountLeftRight, Sum, PutSingletons, MergeCenter, AverageAll, SeedPaths, ForkPath and ForkAll.
- CometPos.java is modelled as the `CometPos` datatype of CometPath.dfy.
