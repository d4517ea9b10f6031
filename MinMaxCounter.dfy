/** The statistics accumulator `MinMaxCounter`: minimum, maximum, count and total
    of the integer samples folded into it. */
module MinMax {
  import opened JavaInt

  /** The four fields of a counter, as a value. */
  datatype Stats = Stats(min: Int32, max: Int32, count: int, total: int)

  /** A counter that has seen nothing: min = Integer.MAX_VALUE, max = Integer.MIN_VALUE. */
  const Fresh: Stats := Stats(IntMax, IntMin, 0, 0)

  /** `update(int value)`: fold one sample in. */
  function Observe(s: Stats, v: Int32): (r: Stats)
    ensures r.min <= v <= r.max
    ensures r.min <= s.min && r.max >= s.max
    ensures r.count == s.count + 1 && r.total == s.total + v
  {
    Stats(Min(s.min, v), Max(s.max, v), s.count + 1, s.total + v)
  }

  /** `update(MinMaxCounter other)`: fold another counter's aggregate in. */
  function Merge(a: Stats, b: Stats): Stats
  {
    Stats(Min(a.min, b.min), Max(a.max, b.max), a.count + b.count, a.total + b.total)
  }

  /** `getAvg`: 0 for an empty counter, otherwise total/count rounded toward zero. */
  function Avg(s: Stats): (r: int)
    ensures s.count == 0 ==> r == 0
    ensures s.count != 0 ==> r == Div(s.total, s.count)
  {
    if s.count == 0 then 0 else Div(s.total, s.count)
  }

  /** The counter after folding the samples `vs` into `s`, one by one in order. */
  function Fold(s: Stats, vs: seq<Int32>): Stats
  {
    if vs == [] then s else Observe(Fold(s, vs[..|vs| - 1]), vs[|vs| - 1])
  }

  function Sum(vs: seq<int>): int
  {
    if vs == [] then 0 else Sum(vs[..|vs| - 1]) + vs[|vs| - 1]
  }

  /** What holds of every counter built from the no-argument constructor by updates and merges. */
  ghost predicate Consistent(s: Stats)
  {
    && s.count >= 0
    && (s.count == 0 ==> s == Fresh)
    && (s.count > 0 ==> s.min <= s.max && s.count * s.min <= s.total <= s.count * s.max)
  }

  lemma FoldAppend(s: Stats, vs: seq<Int32>, v: Int32)
    ensures Fold(s, vs + [v]) == Observe(Fold(s, vs), v)
  {
    assert (vs + [v])[..|vs|] == vs;
  }

  /** Two updates in a row, as the ring loops do them. */
  lemma FoldPair(s: Stats, vs: seq<Int32>, a: Int32, b: Int32)
    ensures Fold(s, vs + [a, b]) == Observe(Observe(Fold(s, vs), a), b)
  {
    FoldAppend(s, vs, a);
    assert vs + [a, b] == (vs + [a]) + [b];
    FoldAppend(s, vs + [a], b);
  }

  /** Folding samples into a fresh counter yields their count, their sum, and a
      minimum and maximum that are attained by samples and bound all of them. */
  lemma {:induction false} FoldFresh(vs: seq<Int32>)
    ensures Fold(Fresh, vs).count == |vs|
    ensures Fold(Fresh, vs).total == Sum(vs)
    ensures forall i :: 0 <= i < |vs| ==> Fold(Fresh, vs).min <= vs[i] <= Fold(Fresh, vs).max
    ensures vs != [] ==> Fold(Fresh, vs).min in vs && Fold(Fresh, vs).max in vs
    ensures vs == [] ==> Fold(Fresh, vs) == Fresh
  {
    if vs != [] {
      var init := vs[..|vs| - 1];
      FoldFresh(init);
      assert vs == init + [vs[|vs| - 1]];
    }
  }

  /** Merging is associative on all four fields. */
  lemma MergeAssociative(a: Stats, b: Stats, c: Stats)
    ensures Merge(Merge(a, b), c) == Merge(a, Merge(b, c))
  {
  }

  /** Merging is commutative on all four fields. */
  lemma MergeCommutative(a: Stats, b: Stats)
    ensures Merge(a, b) == Merge(b, a)
  {
  }

  /** A fresh counter is the identity of merging. */
  lemma MergeFreshIdentity(s: Stats)
    ensures Merge(Fresh, s) == s && Merge(s, Fresh) == s
  {
  }

  /** `c.update(c)`: merging a counter with itself doubles count and total and keeps min and max. */
  lemma MergeSelf(s: Stats)
    ensures Merge(s, s) == Stats(s.min, s.max, 2 * s.count, 2 * s.total)
  {
  }

  /** Observing one sample is merging with the counter of that single sample. */
  lemma ObserveIsMerge(s: Stats, v: Int32)
    ensures Observe(s, v) == Merge(s, Observe(Fresh, v))
  {
  }

  /** Folding two runs of samples in a row is merging their separate folds. */
  lemma {:induction false} FoldConcat(s: Stats, vs: seq<Int32>, ws: seq<Int32>)
    ensures Fold(s, vs + ws) == Merge(Fold(s, vs), Fold(Fresh, ws))
  {
    if ws == [] {
      assert vs + ws == vs;
    } else {
      var init := ws[..|ws| - 1];
      var last := ws[|ws| - 1];
      assert vs + ws == (vs + init) + [last];
      FoldConcat(s, vs, init);
      FoldAppend(s, vs + init, last);
    }
  }

  /** Folding two runs in a row is folding the second run into the first one's counter:
      one counter updated by consecutive loops. */
  lemma {:induction false} FoldThen(s: Stats, vs: seq<Int32>, ws: seq<Int32>)
    ensures Fold(s, vs + ws) == Fold(Fold(s, vs), ws)
  {
    if ws == [] {
      assert vs + ws == vs;
    } else {
      var init := ws[..|ws| - 1];
      var last := ws[|ws| - 1];
      assert vs + ws == (vs + init) + [last];
      FoldThen(s, vs, init);
      FoldAppend(s, vs + init, last);
    }
  }

  lemma FreshConsistent()
    ensures Consistent(Fresh)
  {
  }

  /** Updating keeps a counter consistent. */
  lemma {:induction false} ObserveConsistent(s: Stats, v: Int32)
    requires Consistent(s)
    ensures Consistent(Observe(s, v))
  {
    var r := Observe(s, v);
    if s.count > 0 {
      MulMonotone(r.min, s.min, s.count);
      MulMonotone(s.max, r.max, s.count);
      MulDistributes(s.count, 1, r.min);
      MulDistributes(s.count, 1, r.max);
    }
  }

  /** Merging two consistent counters gives a consistent counter. */
  lemma {:induction false} MergeConsistent(a: Stats, b: Stats)
    requires Consistent(a) && Consistent(b)
    ensures Consistent(Merge(a, b))
  {
    var r := Merge(a, b);
    if a.count > 0 && b.count > 0 {
      MulMonotone(r.min, a.min, a.count);
      MulMonotone(r.min, b.min, b.count);
      MulMonotone(a.max, r.max, a.count);
      MulMonotone(b.max, r.max, b.count);
      MulDistributes(a.count, b.count, r.min);
      MulDistributes(a.count, b.count, r.max);
    }
  }

  /** Every fold from a fresh counter is consistent. */
  lemma {:induction false} FoldConsistent(vs: seq<Int32>)
    ensures Consistent(Fold(Fresh, vs))
  {
    if vs != [] {
      FoldConsistent(vs[..|vs| - 1]);
      ObserveConsistent(Fold(Fresh, vs[..|vs| - 1]), vs[|vs| - 1]);
    }
  }

  /** After at least one update the average lies between minimum and maximum. */
  lemma {:induction false} AvgBetweenMinMax(s: Stats)
    requires Consistent(s) && s.count > 0
    ensures s.min <= Avg(s) <= s.max
  {
    DivBetween(s.total, s.count, s.min, s.max);
  }

  /** The conditional form of AvgBetweenMinMax, for contracts that cannot require consistency. */
  lemma AvgInRange(s: Stats)
    ensures Consistent(s) && s.count > 0 ==> s.min <= Avg(s) <= s.max
  {
    if Consistent(s) && s.count > 0 {
      AvgBetweenMinMax(s);
    }
  }

  /** The average of n equal samples is that sample. */
  lemma {:induction false} AvgOfEqualSamples(vs: seq<Int32>, v: Int32)
    requires vs != [] && forall i :: 0 <= i < |vs| ==> vs[i] == v
    ensures Fold(Fresh, vs).min == v == Fold(Fresh, vs).max
    ensures Avg(Fold(Fresh, vs)) == v
  {
    FoldFresh(vs);
    SumOfEqual(vs, v);
    DivMultiple(v, |vs|);
  }

  lemma {:induction false} SumOfEqual(vs: seq<Int32>, v: int)
    requires forall i :: 0 <= i < |vs| ==> vs[i] == v
    ensures Sum(vs) == v * |vs|
  {
    if vs != [] {
      SumOfEqual(vs[..|vs| - 1], v);
    }
  }

  /** The mutable counter of MinMaxCounter.java. */
  class MinMaxCounter {
    var min: Int32
    var max: Int32
    var count: int
    var total: int

    function Value(): Stats
      reads this
    {
      Stats(min, max, count, total)
    }

    /** `new MinMaxCounter()`. */
    constructor ()
      ensures Value() == Fresh
    {
      min, max, count, total := IntMax, IntMin, 0, 0;
    }

    /** `new MinMaxCounter(min, max, count, total)`. */
    constructor Of(min: Int32, max: Int32, count: int, total: int)
      ensures Value() == Stats(min, max, count, total)
    {
      this.min, this.max, this.count, this.total := min, max, count, total;
    }

    /** The copy constructor: a new, independent counter with the same fields. */
    constructor Copy(other: MinMaxCounter)
      ensures Value() == other.Value()
    {
      min, max, count, total := other.min, other.max, other.count, other.total;
    }

    /** `update(int value)`: returns the receiver itself. */
    method Update(value: Int32) returns (self: MinMaxCounter)
      modifies this
      ensures self == this
      ensures Value() == Observe(old(Value()), value)
    {
      min := Min(min, value);
      max := Max(max, value);
      count := count + 1;
      total := total + value;
      self := this;
    }

    /** `update(MinMaxCounter other)`: `other` may be the receiver itself, in which
        case its fields are read before they are overwritten field by field. */
    method UpdateFrom(other: MinMaxCounter) returns (self: MinMaxCounter)
      modifies this
      ensures self == this
      ensures Value() == Merge(old(Value()), old(other.Value()))
      ensures other != this ==> other.Value() == old(other.Value())
    {
      min := Min(min, other.min);
      max := Max(max, other.max);
      count := count + other.count;
      total := total + other.total;
      self := this;
    }

    /** `getMin()`: Integer.MAX_VALUE until the first update. */
    function GetMin(): (r: Int32)
      reads this
      ensures r == Value().min
      ensures Consistent(Value()) && count == 0 ==> r == IntMax
      ensures Consistent(Value()) && count > 0 ==> r <= max
    {
      min
    }

    /** `getMax()`: Integer.MIN_VALUE until the first update. */
    function GetMax(): (r: Int32)
      reads this
      ensures r == Value().max
      ensures Consistent(Value()) && count == 0 ==> r == IntMin
      ensures Consistent(Value()) && count > 0 ==> min <= r
    {
      max
    }

    function GetCount(): (r: int)
      reads this
      ensures r == Value().count
      ensures Consistent(Value()) ==> r >= 0
    {
      count
    }

    function GetTotal(): (r: int)
      reads this
      ensures r == Value().total
      ensures Consistent(Value()) && count > 0 ==> count * min <= r <= count * max
      ensures Consistent(Value()) && count == 0 ==> r == 0
    {
      total
    }

    /** `getAvg()`: within min..max once the counter has seen a sample. */
    function GetAvg(): (r: int)
      reads this
      ensures count == 0 ==> r == 0
      ensures count != 0 ==> r == Div(total, count)
      ensures Consistent(Value()) && count > 0 ==> min <= r <= max
    {
      AvgInRange(Value());
      Avg(Value())
    }
  }
}
