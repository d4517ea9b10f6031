/** `detectCometPaths` with its paths being CometPath values: a path starts with
    `new CometPath(timestamp, spot)`, is extended with `createNewIfInRange` and
    measured with `getLength`. */
module CometTracking {
  import opened Optional
  import opened IntPos
  import opened Paths
  import opened Tracker
  import opened Sampling

  /** `createNewIfInRange` as the tracker's extension step, defined for every path and
      time. Extend asks for a later time than the path's last position, which Java never
      checks: Java extrapolates backwards for an earlier time, and throws only when a
      longer path's previous step had lastDT == 0. The lemmas below show the tracker
      always meets Extend's condition when the images' timestamps increase, and then
      TryExtend is Extend. */
  function TryExtend(v: PathValue, t: int, p: Pos): Option<PathValue>
  {
    if WellFormed(v) && t > Last(v).timestamp then Extend(v, t, p) else None
  }

  function PathLength(v: PathValue): int
  {
    Length(v)
  }

  /** The images are in strictly increasing time order. */
  predicate Increasing(frames: seq<Frame<Pos>>)
  {
    forall i, j :: 0 <= i < j < |frames| ==> frames[i].timestamp < frames[j].timestamp
  }

  /** The paths the tracker holds after some frames. */
  function Tracked(frames: seq<Frame<Pos>>): State<PathValue>
  {
    Track(Start, TryExtend, PathLength, frames)
  }

  /** Every path alive after a frame is well-formed and ends at that frame's time. */
  predicate LiveAt(live: seq<PathValue>, t: int)
  {
    forall v :: v in live ==> WellFormed(v) && Last(v).timestamp == t
  }

  lemma SeedsLive(t: int, spots: seq<Pos>)
    ensures LiveAt(Seeds(Start, t, spots), t)
  {
    forall v | v in Seeds(Start, t, spots)
      ensures WellFormed(v) && Last(v).timestamp == t
    {
      var i :| 0 <= i < |spots| && Seeds(Start, t, spots)[i] == v;
      StartWellFormed(t, spots[i]);
    }
  }

  lemma ForksLive(live: seq<PathValue>, t0: int, t: int, spots: seq<Pos>)
    requires LiveAt(live, t0) && t0 < t
    ensures LiveAt(Forks(TryExtend, live, t, spots), t)
  {
    ForksFrom(TryExtend, live, t, spots);
    forall q | q in Forks(TryExtend, live, t, spots)
      ensures WellFormed(q) && Last(q).timestamp == t
    {
      var v, s :| v in live && s in spots && TryExtend(v, t, s) == Some(q);
      ExtendWellFormed(v, t, s);
    }
  }

  /** The tracker's invariant on increasing timestamps: the live paths are well-formed
      and end at the latest frame, and every archived path is well-formed. */
  lemma {:induction false} TrackedWellFormed(frames: seq<Frame<Pos>>)
    requires Increasing(frames)
    ensures |frames| > 0 ==> LiveAt(Tracked(frames).live, frames[|frames| - 1].timestamp)
    ensures |frames| == 0 ==> Tracked(frames).live == []
    ensures forall v :: v in Tracked(frames).finished ==> WellFormed(v)
  {
    if frames != [] {
      var init := frames[..|frames| - 1];
      var f := frames[|frames| - 1];
      var before := Tracked(init);
      assert Increasing(init);
      TrackedWellFormed(init);
      SeedsLive(f.timestamp, f.spots);
      if init != [] {
        ForksLive(before.live, init[|init| - 1].timestamp, f.timestamp, f.spots);
      } else {
        assert Forks(TryExtend, before.live, f.timestamp, f.spots) == [];
      }
      ArchivedLong(TryExtend, PathLength, before.live, f.timestamp, f.spots);
      forall v | v in Tracked(frames).finished
        ensures WellFormed(v)
      {
        if v !in before.finished {
          assert v in Archived(TryExtend, PathLength, before.live, f.timestamp, f.spots);
        }
      }
    }
  }

  /** On increasing timestamps the tracker only ever extends a path where
      `createNewIfInRange`'s precondition holds, so TryExtend is exactly Extend there. */
  lemma GuardNeverFires(frames: seq<Frame<Pos>>, k: int, v: PathValue, p: Pos)
    requires Increasing(frames) && 0 <= k < |frames|
    requires v in Tracked(frames[..k]).live
    ensures WellFormed(v) && frames[k].timestamp > Last(v).timestamp
    ensures TryExtend(v, frames[k].timestamp, p) == Extend(v, frames[k].timestamp, p)
  {
    assert Increasing(frames[..k]);
    TrackedWellFormed(frames[..k]);
  }

  /** Every path `detectCometPaths` returns is a well-formed path of at least five
      positions in increasing time order. */
  lemma DetectedPaths(frames: seq<Frame<Pos>>)
    requires Increasing(frames)
    ensures forall v :: v in Detected(Start, TryExtend, PathLength, frames) ==>
              WellFormed(v) && Length(v) >= MinLength
  {
    var st := Tracked(frames);
    DetectedLong(Start, TryExtend, PathLength, frames);
    TrackedWellFormed(frames);
    FilterMembers(LongEnough(PathLength), st.live);
    assert Detected(Start, TryExtend, PathLength, frames) == st.finished + Filter(LongEnough(PathLength), st.live);
    forall v | v in Detected(Start, TryExtend, PathLength, frames)
      ensures WellFormed(v)
    {
      if v !in st.finished {
        assert v in Filter(LongEnough(PathLength), st.live);
      }
    }
  }
}
