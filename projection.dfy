/** `sweep_delayed_orientation_with_neighbours`: every individual's orientation
    projected onto the polarization of its neighbours' orientations `d` frames
    later, for every delay d below maxDelay. */
module Projection {
  import opened Tensors
  import opened Restriction

  /** Every vector of the stream has c coordinates. */
  predicate Coordinates(data: Frames, c: nat)
  {
    forall t, i :: 0 <= t < |data| && 0 <= i < |data[t]| ==> |data[t][i]| == c
  }

  /** Every vector of the group has c coordinates. */
  predicate GroupOf(g: seq<Vec>, c: nat)
  {
    forall k :: 0 <= k < |g| ==> |g[k]| == c
  }

  /** The polarization reduction, which is not part of this model and is taken
      as a parameter, collapses a group of c-vectors into one c-vector. */
  ghost predicate ReducesTo(polarization: seq<Vec> -> Vec, c: nat)
  {
    forall g :: GroupOf(g, c) ==> |polarization(g)| == c
  }

  /** The orientations of individual i's neighbours at frame t, read d frames later. */
  function DelayedNeighbourOrientations(orientation: Frames, idx: Neighbours, n: nat, d: nat, t: nat, i: nat): (g: seq<Vec>)
    requires Tracks(orientation, idx, n)
    requires t + d < |orientation| && i < n
    ensures |g| == |idx[t][i]|
    ensures forall s :: 0 <= s < |g| ==> g[s] == orientation[t + d][idx[t][i][s]]
  {
    seq(|idx[t][i]|, s requires 0 <= s < |idx[t][i]| => orientation[t + d][idx[t][i][s]])
  }

  /** The sweep's neighbour group of individual i at frame t and delay d is the
      group of its neighbours' orientations d frames later. */
  lemma SweptGroupsAreDelayedNeighbours(orientation: Frames, idx: Neighbours, n: nat, maxDelay: nat)
    requires Tracks(orientation, idx, n) && maxDelay <= |orientation|
    ensures forall d, t, i :: 0 <= d < maxDelay && 0 <= t < |orientation| - maxDelay && 0 <= i < n ==>
      var sweep := Sweep(orientation, idx, n, maxDelay, None);
      |sweep[d].all| == |orientation| - maxDelay && |sweep[d].all[t]| == n &&
      sweep[d].all[t][i] == DelayedNeighbourOrientations(orientation, idx, n, d, t, i)
  {
    var sweep := Sweep(orientation, idx, n, maxDelay, None);
    SweepGathersDelayedFrames(orientation, idx, n, maxDelay, None);
    forall d, t, i | 0 <= d < maxDelay && 0 <= t < |orientation| - maxDelay && 0 <= i < n
      ensures |sweep[d].all| == |orientation| - maxDelay && |sweep[d].all[t]| == n
      ensures sweep[d].all[t][i] == DelayedNeighbourOrientations(orientation, idx, n, d, t, i)
    {
      var g := DelayedNeighbourOrientations(orientation, idx, n, d, t, i);
      assert |sweep[d].all[t][i]| == |g|;
      forall s | 0 <= s < |g| ensures sweep[d].all[t][i][s] == g[s] {
      }
    }
  }

  /** Every neighbour group that the sweep gathers from a c-coordinate stream is
      a group of c-vectors, which polarization reduces to a c-vector. */
  lemma DelayedGroupsHaveCoordinates(orientation: Frames, idx: Neighbours, n: nat, c: nat, maxDelay: nat,
                                     polarization: seq<Vec> -> Vec)
    requires Tracks(orientation, idx, n) && Coordinates(orientation, c) && maxDelay <= |orientation|
    requires ReducesTo(polarization, c)
    ensures forall d, t, i :: 0 <= d < maxDelay && 0 <= t < |orientation| - maxDelay && 0 <= i < n ==>
      GroupOf(DelayedNeighbourOrientations(orientation, idx, n, d, t, i), c) &&
      |polarization(DelayedNeighbourOrientations(orientation, idx, n, d, t, i))| == c
  {
    forall d, t, i | 0 <= d < maxDelay && 0 <= t < |orientation| - maxDelay && 0 <= i < n
      ensures GroupOf(DelayedNeighbourOrientations(orientation, idx, n, d, t, i), c)
      ensures |polarization(DelayedNeighbourOrientations(orientation, idx, n, d, t, i))| == c
    {
      var g := DelayedNeighbourOrientations(orientation, idx, n, d, t, i);
      forall s | 0 <= s < |g| ensures |g[s]| == c {
        assert g[s] == orientation[t + d][idx[t][i][s]];
      }
    }
  }

  /** The einsum '...j,i...j->i...' of the first |groups[d]| orientations with
      the polarization of every group: a dot product over the coordinate axis. */
  function Project(orientation: Frames, groups: Swept, n: nat, c: nat, polarization: seq<Vec> -> Vec)
    : (p: seq<seq<seq<real>>>)
    requires Coordinates(orientation, c) && ReducesTo(polarization, c)
    requires forall d :: 0 <= d < |groups| ==> |groups[d]| <= |orientation|
    requires forall d, t :: 0 <= d < |groups| && 0 <= t < |groups[d]| ==> |groups[d][t]| == n && n <= |orientation[t]|
    requires forall d, t, i :: 0 <= d < |groups| && 0 <= t < |groups[d]| && 0 <= i < |groups[d][t]| ==>
      GroupOf(groups[d][t][i], c)
    ensures |p| == |groups|
    ensures forall d, t, i :: 0 <= d < |groups| && 0 <= t < |groups[d]| && 0 <= i < n ==>
      |p[d]| == |groups[d]| && |p[d][t]| == n &&
      p[d][t][i] == Dot(orientation[t][i], polarization(groups[d][t][i]))
  {
    seq(|groups|, d requires 0 <= d < |groups| =>
      seq(|groups[d]|, t requires 0 <= t < |groups[d]| =>
        // polarization collapses the neighbour axis, then the dot product the coordinate axis
        seq(n, i requires 0 <= i < n => Dot(orientation[t][i], polarization(groups[d][t][i])))))
  }

  /** Returns the projection (delay x time x individual) and the sweep of the
      orientations that it was computed from (delay x time x individual x slot x
      coordinate). */
  function SweepDelayedOrientationWithNeighbours(orientation: Frames, idx: Neighbours, n: nat, c: nat,
                                                 maxDelay: nat, polarization: seq<Vec> -> Vec)
    : (r: (seq<seq<seq<real>>>, Swept))
    requires Tracks(orientation, idx, n) && Coordinates(orientation, c) && maxDelay <= |orientation|
    requires ReducesTo(polarization, c)
    ensures |r.1| == maxDelay
    ensures forall d :: 0 <= d < maxDelay ==>
      Sweep(orientation, idx, n, maxDelay, None)[d] == AllIndividuals(r.1[d])
    ensures |r.0| == maxDelay
    ensures forall d :: 0 <= d < maxDelay ==>
      |r.0[d]| == |orientation| - maxDelay && forall t :: 0 <= t < |r.0[d]| ==> |r.0[d][t]| == n
    ensures forall d, t, i :: 0 <= d < maxDelay && 0 <= t < |orientation| - maxDelay && 0 <= i < n ==>
      |r.0[d]| == |orientation| - maxDelay && |r.0[d][t]| == n &&
      r.0[d][t][i] == Dot(orientation[t][i], polarization(DelayedNeighbourOrientations(orientation, idx, n, d, t, i)))
  {
    var sweep := Sweep(orientation, idx, n, maxDelay, None);
    SweptGroupsAreDelayedNeighbours(orientation, idx, n, maxDelay);
    DelayedGroupsHaveCoordinates(orientation, idx, n, c, maxDelay, polarization);
    var sweepE := seq(maxDelay, d requires 0 <= d < maxDelay => sweep[d].all);
    (Project(orientation, sweepE, n, c, polarization), sweepE)
  }
}
