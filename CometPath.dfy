/** A candidate comet trajectory (CometPath.java): the timestamped positions seen so
    far and the last step's displacement, used to predict where the next spot lies.
    Timestamps are the milliseconds of `Date.getTime()`. */
module Paths {
  import opened JavaInt
  import opened IntPos
  import opened Optional

  /** CometPos.java: a timestamp and a position, compared by value. */
  datatype CometPos = CometPos(timestamp: int, position: Pos)

  /** The four fields of a CometPath. */
  datatype PathValue = PathValue(positions: seq<CometPos>, lastDX: int, lastDY: int, lastDT: int)

  /** How far (in Manhattan distance) a spot may lie from the predicted position. */
  const Tolerance: int := 5

  /** `new CometPath(timestamp, pos)`: one position, no movement yet. */
  function Start(t: int, p: Pos): (v: PathValue)
    ensures |v.positions| == 1 && v.positions[0] == CometPos(t, p)
    ensures v.lastDX == 0 && v.lastDY == 0 && v.lastDT == 0
  {
    PathValue([CometPos(t, p)], 0, 0, 0)
  }

  function Last(v: PathValue): CometPos
    requires |v.positions| > 0
  {
    v.positions[|v.positions| - 1]
  }

  /** Timestamps strictly increase along the path. */
  predicate Chronological(ps: seq<CometPos>)
  {
    forall i, j :: 0 <= i < j < |ps| ==> ps[i].timestamp < ps[j].timestamp
  }

  /** What every path built by the constructor and `createNewIfInRange` satisfies: at
      least one position, increasing timestamps, and lastDX/lastDY/lastDT the last
      step's displacement (all zero while there is no step). */
  predicate WellFormed(v: PathValue)
  {
    && |v.positions| > 0
    && Chronological(v.positions)
    && var n := |v.positions|;
      if n == 1 then v.lastDX == 0 && v.lastDY == 0 && v.lastDT == 0
      else
        var a, b := v.positions[n - 2], v.positions[n - 1];
        && v.lastDX == b.position.x - a.position.x
        && v.lastDY == b.position.y - a.position.y
        && v.lastDT == b.timestamp - a.timestamp
  }

  /** The position predicted for time t: the last position moved by the last step's
      velocity scaled to the new time step, with long division truncating toward zero
      and the quotient cast to `int`. */
  function Expected(v: PathValue, t: int): Pos
    requires |v.positions| > 0 && v.lastDT != 0
  {
    var last := Last(v);
    var dt := t - last.timestamp;
    var dx := Wrap32(Div(v.lastDX * dt, v.lastDT));
    var dy := Wrap32(Div(v.lastDY * dt, v.lastDT));
    Pos(last.position.x + dx, last.position.y + dy)
  }

  /** A path with at least two positions accepts a spot within the tolerance of the
      predicted position; a path with one position accepts every spot. */
  predicate InRange(v: PathValue, t: int, p: Pos)
    requires WellFormed(v)
  {
    |v.positions| == 1 || p.ManhattanDist(Expected(v, t)) <= Tolerance
  }

  /** The path with (t, p) appended and the last step's displacement recorded. */
  function Append(v: PathValue, t: int, p: Pos): PathValue
    requires |v.positions| > 0
  {
    var last := Last(v);
    PathValue(v.positions + [CometPos(t, p)], p.x - last.position.x, p.y - last.position.y, t - last.timestamp)
  }

  /** `createNewIfInRange(timestamp, pos)`: the extended copy, or None (Java's null).
      Timestamps must increase. This is stricter than Java, which accepts an earlier
      or equal time and extrapolates backwards; Java's division throws only on a longer
      path whose previous step had lastDT == 0. */
  function Extend(v: PathValue, t: int, p: Pos): (r: Option<PathValue>)
    requires WellFormed(v) && t > Last(v).timestamp
    ensures r.None? <==> |v.positions| > 1 && p.ManhattanDist(Expected(v, t)) > Tolerance
    ensures r.Some? ==> r.value == Append(v, t, p)
  {
    if InRange(v, t, p) then Some(Append(v, t, p)) else None
  }

  /** `getLength()`. */
  function Length(v: PathValue): nat
  {
    |v.positions|
  }

  /** The constructor builds a well-formed path. */
  lemma StartWellFormed(t: int, p: Pos)
    ensures WellFormed(Start(t, p)) && Length(Start(t, p)) == 1
  {
  }

  /** An accepted extension is again well-formed, one longer, keeps the old positions
      as its prefix and records the step to the new spot. */
  lemma ExtendWellFormed(v: PathValue, t: int, p: Pos)
    requires WellFormed(v) && t > Last(v).timestamp
    requires Extend(v, t, p).Some?
    ensures var w := Extend(v, t, p).value;
      && WellFormed(w)
      && Length(w) == Length(v) + 1
      && w.positions[..Length(v)] == v.positions
      && Last(w) == CometPos(t, p)
      && w.lastDT == t - Last(v).timestamp > 0
  {
    var w := Extend(v, t, p).value;
    assert w.positions[..Length(v)] == v.positions;
  }

  /** A path of length 1 accepts every spot and becomes a path of length 2. */
  lemma SingleAcceptsAll(v: PathValue, t: int, p: Pos)
    requires WellFormed(v) && Length(v) == 1 && t > Last(v).timestamp
    ensures Extend(v, t, p).Some? && Length(Extend(v, t, p).value) == 2
  {
  }

  /** The tolerance boundary: with two or more positions, a spot at Manhattan distance
      5 from the prediction is accepted and one at distance 6 is rejected. */
  lemma ToleranceBoundary(v: PathValue, t: int, p: Pos, q: Pos)
    requires WellFormed(v) && Length(v) > 1 && t > Last(v).timestamp
    requires p.ManhattanDist(Expected(v, t)) == 5 && q.ManhattanDist(Expected(v, t)) == 6
    ensures Extend(v, t, p).Some? && Extend(v, t, q).None?
  {
  }

  /** With an equal time step, a spot continuing the last step's displacement is the
      predicted position itself and is accepted (displacements within `int`). */
  lemma {:induction false} ConstantVelocityAccepted(v: PathValue, t: int)
    requires WellFormed(v) && Length(v) > 1
    requires t - Last(v).timestamp == v.lastDT
    requires IntMin <= v.lastDX <= IntMax && IntMin <= v.lastDY <= IntMax
    ensures var last := Last(v).position;
      var p := Pos(last.x + v.lastDX, last.y + v.lastDY);
      Expected(v, t) == p && Extend(v, t, p).Some?
  {
    var n := |v.positions|;
    assert v.positions[n - 2].timestamp < v.positions[n - 1].timestamp;
    DivMultiple(v.lastDX, v.lastDT);
    DivMultiple(v.lastDY, v.lastDT);
  }

  /** The mutable CometPath. Its list is never shared: the copy constructor builds a
      fresh one, so the list is held as a sequence value. */
  class CometPath {
    var positions: seq<CometPos>
    var lastDX: int
    var lastDY: int
    var lastDT: int

    function Value(): PathValue
      reads this
    {
      PathValue(positions, lastDX, lastDY, lastDT)
    }

    /** `new CometPath(timestamp, pos)`. */
    constructor (t: int, p: Pos)
      ensures Value() == Start(t, p)
    {
      positions := [CometPos(t, p)];
      lastDX, lastDY, lastDT := 0, 0, 0;
    }

    /** `new CometPath(other)`: an independent copy with the same fields. */
    constructor Copy(other: CometPath)
      ensures Value() == old(other.Value())
    {
      positions := other.positions;
      lastDX, lastDY, lastDT := other.lastDX, other.lastDY, other.lastDT;
    }

    /** `createNewIfInRange(timestamp, pos)`: a new path, never the receiver, which is
        left unchanged (the method modifies nothing that existed before). */
    method CreateNewIfInRange(t: int, p: Pos) returns (r: CometPath?)
      requires WellFormed(Value()) && t > Last(Value()).timestamp
      ensures r == null <==> Extend(Value(), t, p).None?
      ensures r != null ==> fresh(r) && r.Value() == Extend(Value(), t, p).value
    {
      var lastCP := positions[|positions| - 1];
      if |positions| > 1 {
        var dt := t - lastCP.timestamp;
        var dx := Wrap32(Div(lastDX * dt, lastDT));
        var dy := Wrap32(Div(lastDY * dt, lastDT));
        var expectedPos := Pos(lastCP.position.x + dx, lastCP.position.y + dy);
        var mhWrong := p.ManhattanDist(expectedPos);
        if mhWrong > Tolerance {
          return null;
        }
      }
      r := new CometPath.Copy(this);
      r.positions := r.positions + [CometPos(t, p)];
      r.lastDX := p.x - lastCP.position.x;
      r.lastDY := p.y - lastCP.position.y;
      r.lastDT := t - lastCP.timestamp;
    }

    /** `getLength()`. */
    function GetLength(): (n: nat)
      reads this
      ensures n == Length(Value())
    {
      |positions|
    }
  }
}
