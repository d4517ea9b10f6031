/** The tracking loop of `detectCometPaths` (analyze/SequenceAnalyzer.java): frame by
    frame, every spot starts a new path, every live path forks into one descendant per
    spot it accepts, and a path that accepts none is archived when it is long enough.
    The loop is generic in the path and spot types and in how a path is started,
    extended and measured; `CometTracking` below instantiates it with CometPath. */
module Tracker {
  import opened Optional
  import opened Sampling

  /** One image of the sequence: its timestamp and the spots found in it. */
  datatype Frame<S> = Frame(timestamp: int, spots: seq<S>)

  /** The live paths and the archived paths after some frames. */
  datatype State<P> = State(live: seq<P>, finished: seq<P>)

  /** Paths shorter than this are dropped rather than archived. */
  const MinLength: int := 5

  /** The new paths of a frame: one per spot, in spot order. */
  function Seeds<P, S>(start: (int, S) -> P, t: int, spots: seq<S>): (r: seq<P>)
    ensures |r| == |spots|
    ensures forall i :: 0 <= i < |spots| ==> r[i] == start(t, spots[i])
  {
    if spots == [] then [] else Seeds(start, t, spots[..|spots| - 1]) + [start(t, spots[|spots| - 1])]
  }

  /** The descendants of path p in a frame: one per spot that `extend` accepts, in spot
      order. */
  function Children<P, S>(extend: (P, int, S) -> Option<P>, p: P, t: int, spots: seq<S>): (r: seq<P>)
    ensures |r| <= |spots|
    ensures r == [] <==> forall s :: s in spots ==> extend(p, t, s).None?
  {
    if spots == [] then []
    else
      var init := spots[..|spots| - 1];
      var s := spots[|spots| - 1];
      assert spots == init + [s];
      Children(extend, p, t, init) + (if extend(p, t, s).Some? then [extend(p, t, s).value] else [])
  }

  /** The descendants of all live paths, path by path. */
  function Forks<P, S>(extend: (P, int, S) -> Option<P>, live: seq<P>, t: int, spots: seq<S>): seq<P>
  {
    if live == [] then []
    else Forks(extend, live[..|live| - 1], t, spots) + Children(extend, live[|live| - 1], t, spots)
  }

  /** The live paths that accept no spot of the frame and are long enough to keep. */
  function Archived<P, S>(extend: (P, int, S) -> Option<P>, length: P -> int, live: seq<P>, t: int, spots: seq<S>): seq<P>
  {
    if live == [] then []
    else
      var p := live[|live| - 1];
      Archived(extend, length, live[..|live| - 1], t, spots)
        + (if Children(extend, p, t, spots) == [] && length(p) >= MinLength then [p] else [])
  }

  /** The state after the given frames, starting with no paths. */
  function Track<P, S>(start: (int, S) -> P, extend: (P, int, S) -> Option<P>, length: P -> int,
                       frames: seq<Frame<S>>): State<P>
  {
    if frames == [] then State([], [])
    else
      var before := Track(start, extend, length, frames[..|frames| - 1]);
      var f := frames[|frames| - 1];
      State(Seeds(start, f.timestamp, f.spots) + Forks(extend, before.live, f.timestamp, f.spots),
            before.finished + Archived(extend, length, before.live, f.timestamp, f.spots))
  }

  function LongEnough<P>(length: P -> int): P -> bool
  {
    p => length(p) >= MinLength
  }

  /** What `detectCometPaths` returns: the archived paths, then the surviving live paths
      that are long enough. */
  function Detected<P, S>(start: (int, S) -> P, extend: (P, int, S) -> Option<P>, length: P -> int,
                          frames: seq<Frame<S>>): seq<P>
  {
    var st := Track(start, extend, length, frames);
    st.finished + Filter(LongEnough(length), st.live)
  }

  lemma {:induction false} ArchivedLong<P, S>(extend: (P, int, S) -> Option<P>, length: P -> int, live: seq<P>, t: int, spots: seq<S>)
    ensures forall p :: p in Archived(extend, length, live, t, spots) ==> p in live && length(p) >= MinLength
  {
    if live != [] {
      ArchivedLong(extend, length, live[..|live| - 1], t, spots);
    }
  }

  lemma {:induction false} TrackFinishedLong<P, S>(start: (int, S) -> P, extend: (P, int, S) -> Option<P>, length: P -> int,
                                                   frames: seq<Frame<S>>)
    ensures forall p :: p in Track(start, extend, length, frames).finished ==> length(p) >= MinLength
  {
    if frames != [] {
      var before := Track(start, extend, length, frames[..|frames| - 1]);
      var f := frames[|frames| - 1];
      TrackFinishedLong(start, extend, length, frames[..|frames| - 1]);
      ArchivedLong(extend, length, before.live, f.timestamp, f.spots);
    }
  }

  /** Every path `detectCometPaths` returns has at least five positions. */
  lemma DetectedLong<P, S>(start: (int, S) -> P, extend: (P, int, S) -> Option<P>, length: P -> int,
                           frames: seq<Frame<S>>)
    ensures forall p :: p in Detected(start, extend, length, frames) ==> length(p) >= MinLength
  {
    var st := Track(start, extend, length, frames);
    TrackFinishedLong(start, extend, length, frames);
    FilterMembers(LongEnough(length), st.live);
    assert Detected(start, extend, length, frames) == st.finished + Filter(LongEnough(length), st.live);
    forall p | p in Detected(start, extend, length, frames)
      ensures length(p) >= MinLength
    {
      if p !in st.finished {
        assert p in Filter(LongEnough(length), st.live);
      }
    }
  }

  /** One more frame: the Java loop body's effect on the state. */
  lemma TrackStep<P, S>(start: (int, S) -> P, extend: (P, int, S) -> Option<P>, length: P -> int,
                        frames: seq<Frame<S>>, k: int)
    requires 0 <= k < |frames|
    ensures var before, f := Track(start, extend, length, frames[..k]), frames[k];
      Track(start, extend, length, frames[..k + 1])
        == State(Seeds(start, f.timestamp, f.spots) + Forks(extend, before.live, f.timestamp, f.spots),
                 before.finished + Archived(extend, length, before.live, f.timestamp, f.spots))
  {
    assert frames[..k + 1][..k] == frames[..k];
  }

  /** One more live path: the inner loop body's effect on the forks and the archive. */
  lemma ForksStep<P, S>(extend: (P, int, S) -> Option<P>, length: P -> int, live: seq<P>, j: int, t: int, spots: seq<S>)
    requires 0 <= j < |live|
    ensures Forks(extend, live[..j + 1], t, spots) == Forks(extend, live[..j], t, spots) + Children(extend, live[j], t, spots)
    ensures Archived(extend, length, live[..j + 1], t, spots)
         == Archived(extend, length, live[..j], t, spots)
            + (if Children(extend, live[j], t, spots) == [] && length(live[j]) >= MinLength then [live[j]] else [])
  {
    assert live[..j + 1][..j] == live[..j];
  }

  /** Every descendant is the accepted extension by one of the spots. */
  lemma {:induction false} ChildrenFrom<P, S>(extend: (P, int, S) -> Option<P>, p: P, t: int, spots: seq<S>)
    ensures forall q :: q in Children(extend, p, t, spots) ==> exists s :: s in spots && extend(p, t, s) == Some(q)
  {
    if spots != [] {
      var init := spots[..|spots| - 1];
      ChildrenFrom(extend, p, t, init);
      forall q | q in Children(extend, p, t, spots)
        ensures exists s :: s in spots && extend(p, t, s) == Some(q)
      {
        if q in Children(extend, p, t, init) {
          var s :| s in init && extend(p, t, s) == Some(q);
          assert s in spots;
        } else {
          assert extend(p, t, spots[|spots| - 1]) == Some(q);
        }
      }
    }
  }

  /** Every path alive after a frame is a new path of one of its spots or an accepted
      extension of a path alive before it. */
  lemma {:induction false} ForksFrom<P, S>(extend: (P, int, S) -> Option<P>, live: seq<P>, t: int, spots: seq<S>)
    ensures forall q :: q in Forks(extend, live, t, spots) ==>
              exists p, s :: p in live && s in spots && extend(p, t, s) == Some(q)
  {
    if live != [] {
      ForksFrom(extend, live[..|live| - 1], t, spots);
      forall q | q in Forks(extend, live, t, spots)
        ensures exists p, s :: p in live && s in spots && extend(p, t, s) == Some(q)
      {
        if q in Forks(extend, live[..|live| - 1], t, spots) {
          var p, s :| p in live[..|live| - 1] && s in spots && extend(p, t, s) == Some(q);
          assert p in live;
        } else {
          var p := live[|live| - 1];
          ChildrenFrom(extend, p, t, spots);
          var s :| s in spots && extend(p, t, s) == Some(q);
        }
      }
    }
  }

  /** `detectCometPaths`: the Java loop over the images, with the inner loops over spots
      and over the previous frame's live paths. */
  method DetectCometPaths<P, S>(frames: seq<Frame<S>>, start: (int, S) -> P, extend: (P, int, S) -> Option<P>,
                                length: P -> int) returns (finished: seq<P>)
    ensures finished == Detected(start, extend, length, frames)
  {
    var cometPaths: seq<P> := [];
    finished := [];
    var k := 0;
    while k < |frames|
      invariant 0 <= k <= |frames|
      invariant State(cometPaths, finished) == Track(start, extend, length, frames[..k])
    {
      hide Track;
      TrackStep(start, extend, length, frames, k);
      var spots, timestamp := frames[k].spots, frames[k].timestamp;
      var lastCometPaths := cometPaths;
      var seeds := SeedPaths(start, timestamp, spots);
      var forks, archived := ForkAll(extend, length, lastCometPaths, timestamp, spots);
      cometPaths := seeds + forks;
      finished := finished + archived;
      k := k + 1;
    }
    assert frames[..k] == frames;
    ghost var finishedBefore := finished;
    var i := 0;
    while i < |cometPaths|
      invariant 0 <= i <= |cometPaths|
      invariant finished == finishedBefore + Filter(LongEnough(length), cometPaths[..i])
    {
      assert cometPaths[..i + 1] == cometPaths[..i] + [cometPaths[i]];
      FilterAppend(LongEnough(length), cometPaths[..i], cometPaths[i]);
      if length(cometPaths[i]) >= MinLength {
        finished := finished + [cometPaths[i]];
      }
      i := i + 1;
    }
    assert cometPaths[..i] == cometPaths;
  }

  /** The loop over the previous frame's live paths: their descendants, and those that
      found no spot and are long enough to archive. */
  method ForkAll<P, S>(extend: (P, int, S) -> Option<P>, length: P -> int, live: seq<P>, t: int, spots: seq<S>)
    returns (forks: seq<P>, archived: seq<P>)
    ensures forks == Forks(extend, live, t, spots)
    ensures archived == Archived(extend, length, live, t, spots)
  {
    forks, archived := [], [];
    var j := 0;
    while j < |live|
      invariant 0 <= j <= |live|
      invariant forks == Forks(extend, live[..j], t, spots)
      invariant archived == Archived(extend, length, live[..j], t, spots)
    {
      ForksStep(extend, length, live, j, t, spots);
      var lastCometPath := live[j];
      var next := ForkPath(extend, lastCometPath, t, spots);
      forks := forks + next;
      if next == [] && length(lastCometPath) >= MinLength {
        archived := archived + [lastCometPath];
      }
      j := j + 1;
    }
    assert live[..j] == live;
  }

  /** The loop adding one new path per spot. */
  method SeedPaths<P, S>(start: (int, S) -> P, t: int, spots: seq<S>) returns (paths: seq<P>)
    ensures paths == Seeds(start, t, spots)
  {
    paths := [];
    var i := 0;
    while i < |spots|
      invariant 0 <= i <= |spots|
      invariant paths == Seeds(start, t, spots[..i])
    {
      assert spots[..i + 1][..i] == spots[..i];
      paths := paths + [start(t, spots[i])];
      i := i + 1;
    }
    assert spots[..i] == spots;
  }

  /** The loop over the spots for one live path: the accepted extensions, in spot order;
      none were found exactly when the result is empty. */
  method ForkPath<P, S>(extend: (P, int, S) -> Option<P>, p: P, t: int, spots: seq<S>) returns (next: seq<P>)
    ensures next == Children(extend, p, t, spots)
  {
    next := [];
    var s := 0;
    while s < |spots|
      invariant 0 <= s <= |spots|
      invariant next == Children(extend, p, t, spots[..s])
    {
      assert spots[..s + 1][..s] == spots[..s];
      var candidate := extend(p, t, spots[s]);
      if candidate.Some? {
        next := next + [candidate.value];
      }
      s := s + 1;
    }
    assert spots[..s] == spots;
  }
}
