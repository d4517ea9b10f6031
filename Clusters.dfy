/** `concentrate` and `calcAveragePos` of analyze/SequenceAnalyzer.java: candidate
    spots within Manhattan distance 2 of each other, directly or through a chain of
    such spots, form one cluster, and every cluster is replaced by its centroid. */
module Clusters {
  import opened RealPos
  import Sampling

  /** The merge test of `concentrate`. The threshold 2 is hard-coded there; the
      `mhDist` parameter is never read. */
  predicate Adjacent(a: Pos, b: Pos)
  {
    a.ManhattanDist(b) <= 2.0
  }

  lemma AdjacentSymmetric(a: Pos, b: Pos)
    ensures Adjacent(a, b) == Adjacent(b, a)
  {
    DistSymmetric(a, b);
  }

  /** `add` on a LinkedHashSet read back in iteration order: appended when new. */
  function AddNew<T(==)>(r: seq<T>, a: T): seq<T>
  {
    if a in r then r else r + [a]
  }

  /** `new LinkedHashSet<>(s)` in iteration order: every value once, at the place of
      its first occurrence. */
  function Distinct<T(==)>(s: seq<T>): (d: seq<T>)
    ensures forall v :: v in d ==> v in s
    ensures forall v :: v in s ==> v in d
    ensures Sampling.NoDuplicates(d)
    ensures |d| <= |s|
  {
    if s == [] then [] else AddNew(Distinct(s[..|s| - 1]), s[|s| - 1])
  }

  /** The index of the first occurrence of v in s. */
  function FirstIndex<T(==)>(s: seq<T>, v: T): (k: nat)
    requires v in s
    ensures k < |s| && s[k] == v
    ensures forall i :: 0 <= i < k ==> s[i] != v
  {
    if v in s[..|s| - 1] then FirstIndex(s[..|s| - 1], v) else |s| - 1
  }

  /** Distinct keeps the order of first occurrences. */
  lemma {:induction false} DistinctOrder<T>(s: seq<T>)
    ensures forall i, j :: 0 <= i < j < |Distinct(s)| ==>
              FirstIndex(s, Distinct(s)[i]) < FirstIndex(s, Distinct(s)[j])
  {
    if s != [] {
      var init, a := s[..|s| - 1], s[|s| - 1];
      DistinctOrder(init);
      var d0, d := Distinct(init), Distinct(s);
      assert forall v :: v in init ==> FirstIndex(s, v) == FirstIndex(init, v);
      assert d == AddNew(d0, a);
      forall i, j | 0 <= i < j < |d|
        ensures FirstIndex(s, d[i]) < FirstIndex(s, d[j])
      {
        assert d[i] == d0[i] && d[i] in init;
        assert FirstIndex(s, d[i]) == FirstIndex(init, d0[i]) < |init|;
        if j < |d0| {
          assert d[j] == d0[j] && d[j] in init;
          assert FirstIndex(s, d[j]) == FirstIndex(init, d0[j]);
          assert FirstIndex(init, d0[i]) < FirstIndex(init, d0[j]);
        } else {
          assert d[j] == a && a !in init;
          assert FirstIndex(s, a) == |init|;
        }
      }
    }
  }

  /** A sequence without duplicates is its own LinkedHashSet order. */
  lemma {:induction false} DistinctOfDistinct<T>(s: seq<T>)
    requires Sampling.NoDuplicates(s)
    ensures Distinct(s) == s
  {
    if s != [] {
      var init := s[..|s| - 1];
      assert Sampling.NoDuplicates(init);
      DistinctOfDistinct(init);
      assert s[|s| - 1] !in init;
      assert init + [s[|s| - 1]] == s;
    }
  }

  /** The LinkedHashMap `clusters`: each distinct center to the set of its cluster. */
  type ClusterMap = map<Pos, set<Pos>>

  /** Each center lies in its own cluster and every member of a cluster maps to that
      same cluster. This is the invariant under which one shared HashSet object per
      cluster behaves as equal set values. */
  predicate Partitioned(m: ClusterMap)
  {
    forall p :: p in m ==> p in m[p] && forall q :: q in m[p] ==> q in m && m[q] == m[p]
  }

  /** Adjacent centers are in the same cluster. */
  predicate Closed(m: ClusterMap)
  {
    forall a, b :: a in m && b in m && Adjacent(a, b) ==> m[a] == m[b]
  }

  /** Some member of A is adjacent to a member of C outside A. */
  predicate Crosses(A: set<Pos>, C: set<Pos>)
  {
    exists a, b :: a in A && b in C && b !in A && Adjacent(a, b)
  }

  /** No proper, non-empty part of C is cut off from the rest of C. */
  predicate Connected(C: set<Pos>)
  {
    forall A :: A <= C && A != {} && A != C ==> Crosses(A, C)
  }

  predicate ConnectedClasses(m: ClusterMap)
  {
    forall p :: p in m ==> Connected(m[p])
  }

  /** The first loop of `concentrate`: `clusters.put(p, {p})` for every key. */
  function Singletons(keys: seq<Pos>): ClusterMap
  {
    map p | p in keys :: {p}
  }

  /** `sp1.addAll(sp2)` and `sp2.forEach(p -> clusters.put(p, sp1))` for
      sp1 = clusters.get(c) and sp2 = clusters.get(o): the members of sp2 are pointed
      at sp1, and the members of sp1 share the grown set, so all members of the union
      map to the union. */
  function Join(m: ClusterMap, c: Pos, o: Pos): (r: ClusterMap)
    requires c in m && o in m
    ensures r.Keys == m.Keys
  {
    var u := m[c] + m[o];
    map p | p in m :: if p in u then u else m[p]
  }

  /** The inner loop for the center c: c is merged with each later center within
      distance 2, in order. */
  function MergeWith(m: ClusterMap, c: Pos, others: seq<Pos>): (r: ClusterMap)
    requires c in m && forall o :: o in others ==> o in m
    ensures r.Keys == m.Keys
    decreases |others|
  {
    if others == [] then m
    else
      var m' := MergeWith(m, c, others[..|others| - 1]);
      var o := others[|others| - 1];
      if Adjacent(c, o) then Join(m', c, o) else m'
  }

  /** The outer loop: the first remaining center is removed and merged with the
      centers still remaining. */
  function MergeAll(m: ClusterMap, rest: seq<Pos>): (r: ClusterMap)
    requires forall p :: p in rest ==> p in m
    ensures r.Keys == m.Keys
    decreases |rest|
  {
    if rest == [] then m else MergeAll(MergeWith(m, rest[0], rest[1..]), rest[1..])
  }

  /** The cluster map `concentrate` builds from its input: a partition of the
      distinct centers. */
  function Clustering(centers: seq<Pos>): (m: ClusterMap)
    ensures forall p :: p in m ==> p in centers
    ensures forall p :: p in centers ==> p in m
    ensures Partitioned(m)
  {
    var keys := Distinct(centers);
    MergeAllFacts(Singletons(keys), keys);
    MergeAll(Singletons(keys), keys)
  }

  lemma SingletonConnected(p: Pos)
    ensures Connected({p})
  {
    forall A | A <= {p} && A != {}
      ensures A == {p}
    {
      var a :| a in A;
    }
  }

  /** Two connected sets joined by an adjacent pair form a connected set. */
  lemma {:induction false} UnionConnected(X: set<Pos>, Y: set<Pos>, c: Pos, o: Pos)
    requires Connected(X) && Connected(Y) && c in X && o in Y && Adjacent(c, o)
    ensures Connected(X + Y)
  {
    forall A | A <= X + Y && A != {} && A != X + Y
      ensures Crosses(A, X + Y)
    {
      var A1, A2 := A * X, A * Y;
      if A1 != {} && A1 != X {
        assert Crosses(A1, X);
        var a, b :| a in A1 && b in X && b !in A1 && Adjacent(a, b);
        assert b !in A;
      } else if A2 != {} && A2 != Y {
        assert Crosses(A2, Y);
        var a, b :| a in A2 && b in Y && b !in A2 && Adjacent(a, b);
        assert b !in A;
      } else if A1 == X {
        assert A2 == {};
        assert o !in A2;
        assert c in A && o !in A;
      } else {
        assert A1 == {} && A2 == Y;
        AdjacentSymmetric(c, o);
        assert c !in A1;
        assert o in A && c !in A;
      }
    }
  }

  /** Joining keeps the partition, puts c and o into one cluster holding both old
      clusters, and never separates centers that shared a cluster. */
  lemma JoinFacts(m: ClusterMap, c: Pos, o: Pos)
    requires Partitioned(m) && c in m && o in m
    ensures var r := Join(m, c, o);
      && Partitioned(r)
      && r[c] == r[o] == m[c] + m[o]
      && (forall a, b :: a in m && b in m && m[a] == m[b] ==> r[a] == r[b])
      && (forall p :: p in m && p !in m[c] + m[o] ==> r[p] == m[p])
  {
    var r, u := Join(m, c, o), m[c] + m[o];
    forall p | p in m
      ensures p in r[p] && forall q :: q in r[p] ==> q in r && r[q] == r[p]
    {
      if p !in u {
        forall q | q in m[p]
          ensures q !in u
        {
          assert m[q] == m[p];
        }
      }
    }
    forall a, b | a in m && b in m && m[a] == m[b]
      ensures r[a] == r[b]
    {
      assert a in m[a] && b in m[b];
    }
  }

  lemma JoinConnected(m: ClusterMap, c: Pos, o: Pos)
    requires Partitioned(m) && ConnectedClasses(m) && c in m && o in m && Adjacent(c, o)
    ensures ConnectedClasses(Join(m, c, o))
  {
    UnionConnected(m[c], m[o], c, o);
  }

  /** The inner loop keeps the partition and connected classes, never separates
      centers, and leaves c in one cluster with every later adjacent center. */
  lemma {:induction false} MergeWithFacts(m: ClusterMap, c: Pos, others: seq<Pos>)
    requires Partitioned(m) && c in m && forall o :: o in others ==> o in m
    ensures var r := MergeWith(m, c, others);
      && Partitioned(r)
      && (ConnectedClasses(m) ==> ConnectedClasses(r))
      && (forall a, b :: a in m && b in m && m[a] == m[b] ==> r[a] == r[b])
      && (forall o :: o in others && Adjacent(c, o) ==> r[c] == r[o])
    decreases |others|
  {
    if others != [] {
      var init, o := others[..|others| - 1], others[|others| - 1];
      var m' := MergeWith(m, c, init);
      assert MergeWith(m, c, others) == if Adjacent(c, o) then Join(m', c, o) else m';
      MergeWithFacts(m, c, init);
      assert forall x :: x in others ==> x in init || x == o;
      hide *;
      if Adjacent(c, o) {
        JoinFacts(m', c, o);
        if ConnectedClasses(m) {
          JoinConnected(m', c, o);
        }
      }
    }
  }

  /** The outer loop ends with a closed partition, given that every adjacent pair
      with a center already taken out is in one cluster. */
  lemma {:induction false} MergeAllFacts(m: ClusterMap, rest: seq<Pos>)
    requires Partitioned(m) && forall p :: p in rest ==> p in m
    requires forall a, b :: a in m && b in m && Adjacent(a, b) && (a !in rest || b !in rest) ==> m[a] == m[b]
    ensures var r := MergeAll(m, rest);
      && Partitioned(r) && Closed(r)
      && (ConnectedClasses(m) ==> ConnectedClasses(r))
    decreases |rest|
  {
    if rest != [] {
      var c, others := rest[0], rest[1..];
      var m1 := MergeWith(m, c, others);
      MergeWithFacts(m, c, others);
      assert forall x :: x in rest ==> x == c || x in others;
      forall a, b | a in m1 && b in m1 && Adjacent(a, b) && (a !in others || b !in others)
        ensures m1[a] == m1[b]
      {
        AdjacentSymmetric(a, b);
        if a !in rest || b !in rest {
          assert m[a] == m[b];
        } else if a == c && b in others {
          assert m1[c] == m1[b];
        } else if b == c && a in others {
          assert m1[c] == m1[a];
        }
      }
      MergeAllFacts(m1, others);
    }
  }

  /** The clusters of `concentrate` are closed under adjacency and connected. */
  lemma ClusteringFacts(centers: seq<Pos>)
    ensures Closed(Clustering(centers)) && ConnectedClasses(Clustering(centers))
  {
    var keys := Distinct(centers);
    var m := Singletons(keys);
    forall p | p in m
      ensures Connected(m[p])
    {
      SingletonConnected(p);
    }
    MergeAllFacts(m, keys);
  }

  /** Under one closed partition, every connected class of another lies inside a
      single class. */
  lemma ClassInside(m1: ClusterMap, m2: ClusterMap, p: Pos)
    requires m1.Keys == m2.Keys && p in m1
    requires Partitioned(m1) && ConnectedClasses(m1)
    requires Partitioned(m2) && Closed(m2)
    ensures m1[p] <= m2[p]
  {
    var A := m1[p] * m2[p];
    assert p in A;
    forall a, b | a in A && b in m1[p] && Adjacent(a, b)
      ensures b in A
    {
      assert m2[a] == m2[p] && b in m2[b];
    }
    assert !Crosses(A, m1[p]);
  }

  /** Uniqueness: two closed partitions of the same centers with connected classes are
      equal. With ClusteringFacts, the clusters are exactly the connected components
      of the relation "Manhattan distance at most 2". */
  lemma ClustersUnique(m1: ClusterMap, m2: ClusterMap)
    requires m1.Keys == m2.Keys
    requires Partitioned(m1) && Closed(m1) && ConnectedClasses(m1)
    requires Partitioned(m2) && Closed(m2) && ConnectedClasses(m2)
    ensures m1 == m2
  {
    forall p | p in m1
      ensures m1[p] == m2[p]
    {
      ClassInside(m1, m2, p);
      ClassInside(m2, m1, p);
    }
  }

  /** The component-wise sum of a set of positions. */
  ghost function Total(s: set<Pos>): Pos
    decreases |s|
  {
    if s == {} then Pos(0.0, 0.0) else var p :| p in s; p.Plus(Total(s - {p}))
  }

  /** The sum does not depend on which member is taken out first. */
  lemma {:induction false} TotalRemove(s: set<Pos>, q: Pos)
    requires q in s
    ensures Total(s) == q.Plus(Total(s - {q}))
    decreases |s|
  {
    var p :| p in s && Total(s) == p.Plus(Total(s - {p}));
    if p != q {
      TotalRemove(s - {p}, q);
      TotalRemove(s - {q}, p);
      var rest := s - {p} - {q};
      assert s - {q} - {p} == rest;
      assert Total(s) == p.Plus(q.Plus(Total(rest)));
      assert Total(s - {q}) == p.Plus(Total(rest));
    }
  }

  lemma SingletonSet(s: set<Pos>, p: Pos)
    requires |s| == 1 && p in s
    ensures s == {p}
  {
    assert |s - {p}| == 0;
  }

  /** `calcAveragePos`: the sole member of a singleton; otherwise the coordinate sums
      plus n/2 (integer division) divided by n. */
  ghost function Centroid(s: set<Pos>): Pos
    requires s != {}
  {
    if |s| == 1 then var p :| p in s; p else Average(Total(s), |s|)
  }

  /** `new Pos((sum.getX() + cnt/2) / cnt, (sum.getY() + cnt/2) / cnt)`. */
  function Average(sum: Pos, cnt: int): Pos
    requires cnt > 0
  {
    Pos((sum.x + (cnt / 2) as real) / cnt as real, (sum.y + (cnt / 2) as real) / cnt as real)
  }

  /** The arithmetic mean of a non-empty set of positions. */
  ghost function Mean(s: set<Pos>): Pos
    requires s != {}
  {
    Pos(Total(s).x / |s| as real, Total(s).y / |s| as real)
  }

  /** A singleton's centroid is its member; for two or more members the centroid is
      the mean moved by (n/2)/n in both coordinates (1/2 for even n, just under 1/2 for
      odd n): the `+ cnt/2` term, a rounding offset for integer division, shifts a
      double-valued average. */
  lemma CentroidFacts(s: set<Pos>)
    requires s != {}
    ensures forall p :: p in s && |s| == 1 ==> Centroid(s) == p
    ensures |s| > 1 ==> var n := |s|; var k := (n / 2) as real / n as real;
      Centroid(s) == Pos(Mean(s).x + k, Mean(s).y + k)
  {
    if |s| == 1 {
      var p :| p in s;
      SingletonSet(s, p);
    }
  }

  /** The centroid of the cluster of every key, in key order. */
  ghost function ClassCentroids(m: ClusterMap, keys: seq<Pos>): (cs: seq<Pos>)
    requires forall k :: k in keys ==> k in m && m[k] != {}
    ensures |cs| == |keys|
  {
    seq(|keys|, i requires 0 <= i < |keys| => Centroid(m[keys[i]]))
  }

  /** What `concentrate(centers, mhDist)` returns: the centroids of the clusters in
      the order of the clusters' first keys, each once. */
  ghost function Concentrated(centers: seq<Pos>): seq<Pos>
  {
    Distinct(ClassCentroids(Clustering(centers), Distinct(centers)))
  }

  /** The centroids collected from a cluster map are exactly the centroids of the
      clusters of the keys. */
  lemma CentroidsMembers(m: ClusterMap, keys: seq<Pos>)
    requires forall k :: k in keys ==> k in m && m[k] != {}
    ensures forall q :: q in Distinct(ClassCentroids(m, keys)) ==> exists k :: k in keys && q == Centroid(m[k])
    ensures forall k :: k in keys ==> Centroid(m[k]) in Distinct(ClassCentroids(m, keys))
  {
    var cs := ClassCentroids(m, keys);
    forall q | q in Distinct(cs)
      ensures exists k :: k in keys && q == Centroid(m[k])
    {
      var i :| 0 <= i < |cs| && cs[i] == q;
      assert keys[i] in keys;
    }
    forall k | k in keys
      ensures Centroid(m[k]) in Distinct(cs)
    {
      var i :| 0 <= i < |keys| && keys[i] == k;
      assert cs[i] == Centroid(m[k]);
    }
  }

  /** The result has no duplicates, at most one entry per distinct input, and consists
      of exactly the centroids of the input's clusters. */
  lemma ConcentratedFacts(centers: seq<Pos>)
    ensures var r := Concentrated(centers);
      && Sampling.NoDuplicates(r)
      && |r| <= |Distinct(centers)|
      && (forall q :: q in r ==> exists p :: p in centers && q == Centroid(Clustering(centers)[p]))
      && (forall p :: p in centers ==> Centroid(Clustering(centers)[p]) in r)
  {
    var m, keys := Clustering(centers), Distinct(centers);
    assert Concentrated(centers) == Distinct(ClassCentroids(m, keys));
    CentroidsMembers(m, keys);
    hide *;
  }

  /** Spots that are pairwise more than distance 2 apart come out unchanged, apart from
      duplicates being removed. */
  lemma SeparatedUnchanged(centers: seq<Pos>)
    requires forall a, b :: a in centers && b in centers && a != b ==> !Adjacent(a, b)
    ensures Concentrated(centers) == Distinct(centers)
  {
    ClusteringFacts(centers);
    var m, keys := Clustering(centers), Distinct(centers);
    forall p | p in m
      ensures m[p] == {p}
    {
      assert {p} <= m[p];
    }
    var cs := ClassCentroids(m, keys);
    forall i | 0 <= i < |keys|
      ensures cs[i] == keys[i]
    {
      CentroidFacts({keys[i]});
    }
    assert cs == keys;
    DistinctOfDistinct(keys);
  }

  /** The chain (0,0), (2,0), (4,0) used below. */
  function Chain(): seq<Pos>
  {
    [Pos(0.0, 0.0), Pos(2.0, 0.0), Pos(4.0, 0.0)]
  }

  /** In a closed partition of three centers a, b, c where b is adjacent to both a
      and c, all three share one cluster. */
  lemma ThreeChained(m: ClusterMap, a: Pos, b: Pos, c: Pos)
    requires Partitioned(m) && Closed(m)
    requires forall q :: q in m <==> q == a || q == b || q == c
    requires Adjacent(a, b) && Adjacent(b, c)
    ensures m[a] == m[b] == m[c] == {a, b, c}
  {
    assert m[a] == m[b] == m[c];
    assert b in m[b] && c in m[c];
    forall q | q in m[a]
      ensures q in {a, b, c}
    {
      assert q in m;
    }
  }

  /** Neighbours in the chain are at distance 2 and its ends at distance 4, yet all
      three points are in one cluster. */
  lemma ChainClustering()
    ensures forall p :: p in Chain() ==> Clustering(Chain())[p] == {Pos(0.0, 0.0), Pos(2.0, 0.0), Pos(4.0, 0.0)}
  {
    var a, b, c := Pos(0.0, 0.0), Pos(2.0, 0.0), Pos(4.0, 0.0);
    hide Clustering, MergeAll, MergeWith, Join, Distinct, Singletons;
    assert Adjacent(a, b) && Adjacent(b, c);
    var centers := Chain();
    assert centers == [a, b, c];
    ClusteringFacts(centers);
    hide *;
    ThreeChained(Clustering(centers), a, b, c);
  }

  /** The chain's centroid: the sums (6, 0), each plus the integer quotient 3/2 = 1, divided by 3. */
  lemma ChainCentroid()
    ensures Centroid({Pos(0.0, 0.0), Pos(2.0, 0.0), Pos(4.0, 0.0)}) == Pos(7.0 / 3.0, 1.0 / 3.0)
  {
    var a, b, c := Pos(0.0, 0.0), Pos(2.0, 0.0), Pos(4.0, 0.0);
    var S := {a, b, c};
    {
      hide *;
      assert a != b && a != c && b != c;
      assert |S| == 3;
      assert S - {a} == {b, c} && {b, c} - {b} == {c} && {c} - {c} == {};
    }
    assert Total({}) == Pos(0.0, 0.0);
    hide Total;
    TotalRemove(S, a);
    TotalRemove({b, c}, b);
    TotalRemove({c}, c);
    assert Total(S) == Pos(6.0, 0.0);
  }

  /** A non-empty sequence of one repeated value keeps that value once. */
  lemma {:induction false} DistinctConstant<T>(s: seq<T>, v: T)
    requires |s| > 0 && forall i :: 0 <= i < |s| ==> s[i] == v
    ensures Distinct(s) == [v]
  {
    if |s| > 1 {
      DistinctConstant(s[..|s| - 1], v);
    }
  }

  /** `concentrate` on the chain returns a single spot, ((6 + 1)/3, (0 + 1)/3): the
      mean (2, 0) shifted by the `+ cnt/2` term. */
  lemma ChainIsOneCluster()
    ensures Concentrated(Chain()) == [Pos(7.0 / 3.0, 1.0 / 3.0)]
  {
    hide Clustering, MergeAll, MergeWith, Join, Singletons, Centroid, Total, Distinct;
    var a, b, c := Pos(0.0, 0.0), Pos(2.0, 0.0), Pos(4.0, 0.0);
    var centers := Chain();
    assert centers == [a, b, c];
    assert Sampling.NoDuplicates(centers);
    DistinctOfDistinct(centers);
    ChainClustering();
    ChainCentroid();
    var m := Clustering(centers);
    var cs := ClassCentroids(m, centers);
    var q := Pos(7.0 / 3.0, 1.0 / 3.0);
    assert Concentrated(centers) == Distinct(cs);
    forall i | 0 <= i < |cs|
      ensures cs[i] == q
    {
      assert centers[i] in centers;
    }
    DistinctConstant(cs, q);
  }

  /** `calcAveragePos(posList)`: the sum is accumulated in a mutable position. */
  method CalcAveragePos(posList: set<Pos>) returns (r: Pos)
    requires posList != {}
    ensures r == Centroid(posList)
  {
    if |posList| == 1 {
      var p :| p in posList;
      CentroidFacts(posList);
      return p;
    }
    var sum := Sum(posList);
    var cnt := |posList|;
    r := Average(sum.Value(), cnt);
  }

  /** `posList.forEach(p -> sum.add(p))` on a fresh `new Pos(0, 0)`. */
  method Sum(posList: set<Pos>) returns (sum: MutablePos)
    ensures fresh(sum) && sum.Value() == Total(posList)
  {
    assert Total({}) == Pos(0.0, 0.0);
    hide Total;
    sum := new MutablePos.Origin();
    var rest := posList;
    while rest != {}
      invariant sum.Value().Plus(Total(rest)) == Total(posList)
      decreases |rest|
    {
      var p :| p in rest;
      TotalRemove(rest, p);
      ghost var next := sum.Value().Plus(p);
      assert next.Plus(Total(rest - {p})) == Total(posList);
      sum.Add(p);
      rest := rest - {p};
    }
  }

  /** `centersPos.forEach(p -> clusters.put(p, {p}))`. */
  method PutSingletons(centersPos: seq<Pos>) returns (clusters: ClusterMap)
    ensures clusters == Singletons(centersPos)
  {
    clusters := map[];
    var k := 0;
    while k < |centersPos|
      invariant 0 <= k <= |centersPos|
      invariant clusters == Singletons(centersPos[..k])
    {
      clusters := clusters[centersPos[k] := {centersPos[k]}];
      k := k + 1;
    }
    assert centersPos[..k] == centersPos;
  }

  /** The inner loop of `concentrate`: the removed center `centerPos` is merged with
      every remaining center within distance 2. */
  method MergeCenter(clusters0: ClusterMap, centerPos: Pos, remaining: seq<Pos>) returns (clusters: ClusterMap)
    requires centerPos in clusters0 && forall p :: p in remaining ==> p in clusters0
    ensures clusters == MergeWith(clusters0, centerPos, remaining)
  {
    clusters := clusters0;
    var j := 0;
    while j < |remaining|
      invariant 0 <= j <= |remaining|
      invariant clusters == MergeWith(clusters0, centerPos, remaining[..j])
    {
      var otherCenterPos := remaining[j];
      assert remaining[..j + 1][..j] == remaining[..j];
      if centerPos.ManhattanDist(otherCenterPos) <= 2.0 {
        var sp1 := clusters[centerPos] + clusters[otherCenterPos];
        clusters := map p | p in clusters :: if p in sp1 then sp1 else clusters[p];
      }
      j := j + 1;
    }
    assert remaining[..j] == remaining;
  }

  /** `clusters.values().forEach(sp -> result.add(calcAveragePos(sp)))` into a
      LinkedHashSet, in key order. */
  method AverageAll(clusters: ClusterMap, keys: seq<Pos>) returns (result: seq<Pos>)
    requires forall k :: k in keys ==> k in clusters && clusters[k] != {}
    ensures result == Distinct(ClassCentroids(clusters, keys))
  {
    result := [];
    var i := 0;
    while i < |keys|
      invariant 0 <= i <= |keys|
      invariant result == Distinct(ClassCentroids(clusters, keys[..i]))
    {
      var a := CalcAveragePos(clusters[keys[i]]);
      assert keys[..i + 1][..i] == keys[..i];
      assert ClassCentroids(clusters, keys[..i + 1]) == ClassCentroids(clusters, keys[..i]) + [a];
      if a !in result {
        result := result + [a];
      }
      i := i + 1;
    }
    assert keys[..i] == keys;
  }

  /** `concentrate(centers, mhDist)`. The cluster sets are values: a merge gives every
      member of the merged clusters the union, which is what sharing one set object per
      cluster amounts to (Partitioned). */
  method Concentrate(centers: seq<Pos>, mhDist: int) returns (result: seq<Pos>)
    ensures result == Concentrated(centers)
  {
    var centersPos := Distinct(centers);
    var clusters := PutSingletons(centersPos);
    var remaining := centersPos;
    while remaining != []
      invariant forall p :: p in remaining ==> p in clusters
      invariant MergeAll(clusters, remaining) == Clustering(centers)
      decreases |remaining|
    {
      var centerPos := remaining[0];
      remaining := remaining[1..];
      clusters := MergeCenter(clusters, centerPos, remaining);
    }
    result := AverageAll(clusters, centersPos);
  }
}
