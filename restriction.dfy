/** Restricting a data stream to each individual's neighbours (`restrict`),
    delaying the data stream against the neighbour-index stream
    (`restrict_with_delay`) and stacking every delay over one common window
    (`sweep_delays`). */
module Restriction {
  import opened Tensors

  datatype Option<T> = None | Some(value: T)

  /** The one error the delay engine raises on purpose. */
  datatype Error = NotImplemented

  datatype Result<T> = Ok(value: T) | Err(error: Error)

  /** What a restriction returns: gathered neighbour rows for every individual
      (time x individual x slot x coordinate) or, when one individual is
      selected, for that individual only (time x slot x coordinate). */
  datatype Restricted = AllIndividuals(all: Gathered) | OneIndividual(one: seq<seq<Vec>>)
  {
    /** Number of frames. */
    function Length(): nat
    {
      if AllIndividuals? then |all| else |one|
    }

    /** The first n frames (`x[:n]`). */
    function Head(n: nat): (r: Restricted)
      ensures r.AllIndividuals? == AllIndividuals?
      ensures r.Length() == if n <= Length() then n else Length()
      ensures AllIndividuals? ==> r.all == all[..r.Length()]
      ensures OneIndividual? ==> r.one == one[..r.Length()]
    {
      match this
      case AllIndividuals(a) => AllIndividuals(a[..if n <= |a| then n else |a|])
      case OneIndividual(o) => OneIndividual(o[..if n <= |o| then n else |o|])
    }
  }

  /** A data stream and the neighbour-index stream of the same run: one entry
      per frame in each, n individuals in every frame, and every neighbour
      identity a valid individual. */
  predicate Tracks(data: Frames, idx: Neighbours, n: nat)
  {
    && |idx| == |data|
    && (forall t :: 0 <= t < |data| ==> |data[t]| == n && |idx[t]| == n)
    && (forall t, i, s :: 0 <= t < |idx| && 0 <= i < |idx[t]| && 0 <= s < |idx[t][i]| ==> 0 <= idx[t][i][s] < n)
  }

  /** The indices can be used to gather from the data frame by frame. */
  predicate Gatherable(data: Frames, idx: Neighbours)
  {
    && |idx| == |data|
    && (forall t, i, s :: 0 <= t < |idx| && 0 <= i < |idx[t]| && 0 <= s < |idx[t][i]| ==> 0 <= idx[t][i][s] < |data[t]|)
  }

  /** `restrict(data, idx)`: slot s of individual i at frame t holds the data of
      that slot's neighbour at the same frame; there is no shift in time. */
  function Restrict(data: Frames, idx: Neighbours): (r: Gathered)
    requires Gatherable(data, idx)
    ensures |r| == |idx|
    ensures forall t :: 0 <= t < |r| ==> |r[t]| == |idx[t]|
    ensures forall t, i :: 0 <= t < |r| && 0 <= i < |r[t]| ==> |r[t][i]| == |idx[t][i]|
    ensures forall t, i, s :: 0 <= t < |r| && 0 <= i < |r[t]| && 0 <= s < |r[t][i]| ==> r[t][i][s] == data[t][idx[t][i][s]]
  {
    seq(|idx|, t requires 0 <= t < |idx| =>
      seq(|idx[t]|, i requires 0 <= i < |idx[t]| =>
        seq(|idx[t][i]|, s requires 0 <= s < |idx[t][i]| => data[t][idx[t][i][s]])))
  }

  /** `restrict(data, idx, individual=ind)`: the same gather for one individual. */
  function RestrictOne(data: Frames, idx: Neighbours, ind: nat): (r: seq<seq<Vec>>)
    requires Gatherable(data, idx)
    requires forall t :: 0 <= t < |idx| ==> ind < |idx[t]|
    ensures |r| == |idx|
    ensures forall t :: 0 <= t < |r| ==> |r[t]| == |idx[t][ind]|
    ensures forall t, s :: 0 <= t < |r| && 0 <= s < |r[t]| ==> r[t][s] == data[t][idx[t][ind][s]]
  {
    seq(|idx|, t requires 0 <= t < |idx| =>
      seq(|idx[t][ind]|, s requires 0 <= s < |idx[t][ind]| => data[t][idx[t][ind][s]]))
  }

  /** `restrict(data, idx, individual=individual)`. */
  function Gather(data: Frames, idx: Neighbours, individual: Option<nat>): (r: Restricted)
    requires Gatherable(data, idx)
    requires individual.Some? ==> forall t :: 0 <= t < |idx| ==> individual.value < |idx[t]|
    ensures r.AllIndividuals? == individual.None?
    ensures r.Length() == |idx|
    ensures individual.None? ==>
      forall t, i, s :: 0 <= t < |idx| && 0 <= i < |idx[t]| && 0 <= s < |idx[t][i]| ==>
        |r.all[t]| == |idx[t]| && |r.all[t][i]| == |idx[t][i]| && r.all[t][i][s] == data[t][idx[t][i][s]]
    ensures individual.Some? ==>
      forall t, s :: 0 <= t < |idx| && 0 <= s < |idx[t][individual.value]| ==>
        |r.one[t]| == |idx[t][individual.value]| && r.one[t][s] == data[t][idx[t][individual.value][s]]
  {
    match individual
    case None => AllIndividuals(Restrict(data, idx))
    case Some(ind) => OneIndividual(RestrictOne(data, idx, ind))
  }

  /** The number of frames in which both streams exist once the data is
      shifted `delay` frames against the indices. */
  function Kept(data: Frames, delay: nat): nat
  {
    if delay < |data| then |data| - delay else 0
  }

  /** The restriction with the data shifted `delay` frames against the
      indices: frame t gathers from data[t + delay] through idx[t]. */
  function Delayed(data: Frames, idx: Neighbours, n: nat, individual: Option<nat>, delay: nat): (r: Restricted)
    requires Tracks(data, idx, n)
    requires individual.Some? ==> individual.value < n
    ensures r.AllIndividuals? == individual.None?
    ensures r.Length() == Kept(data, delay)
    ensures individual.None? ==> forall t :: 0 <= t < |r.all| ==> |r.all[t]| == n
    ensures individual.None? ==> forall t, i :: 0 <= t < |r.all| && 0 <= i < n ==> |r.all[t][i]| == |idx[t][i]|
    ensures individual.Some? ==> forall t :: 0 <= t < |r.one| ==> |r.one[t]| == |idx[t][individual.value]|
  {
    var kept := Kept(data, delay);
    match individual
    case None =>
      AllIndividuals(seq(kept, t requires 0 <= t < kept =>
        seq(n, i requires 0 <= i < n =>
          seq(|idx[t][i]|, s requires 0 <= s < |idx[t][i]| => data[t + delay][idx[t][i][s]]))))
    case Some(ind) =>
      OneIndividual(seq(kept, t requires 0 <= t < kept =>
        seq(|idx[t][ind]|, s requires 0 <= s < |idx[t][ind]| => data[t + delay][idx[t][ind][s]])))
  }

  /** The delayed restriction is `restrict(data[delay:], indices[:-delay])`:
      the plain restriction of the data without its first `delay` frames
      through the indices without their last `delay` frames. */
  lemma DelayedRestrictsShiftedStreams(data: Frames, idx: Neighbours, n: nat, individual: Option<nat>, delay: nat)
    requires Tracks(data, idx, n)
    requires individual.Some? ==> individual.value < n
    ensures delay < |data| ==> Gatherable(data[delay..], idx[..|data| - delay])
    ensures delay < |data| ==>
      Delayed(data, idx, n, individual, delay) == Gather(data[delay..], idx[..|data| - delay], individual)
  {
    if delay < |data| {
      var kept := |data| - delay;
      var shifted, cut := data[delay..], idx[..kept];
      forall t | 0 <= t < kept ensures shifted[t] == data[t + delay] && cut[t] == idx[t] {
      }
      var r := Delayed(data, idx, n, individual, delay);
      var g := Gather(shifted, cut, individual);
      if individual.None? {
        forall t | 0 <= t < kept ensures r.all[t] == g.all[t] {
          forall i | 0 <= i < n ensures r.all[t][i] == g.all[t][i] {
          }
        }
      } else {
        forall t | 0 <= t < kept ensures r.one[t] == g.one[t] {
        }
      }
    }
  }

  /** `restrict_with_delay`: a negative delay is not implemented; delay 0 is the
      plain restriction; a positive delay pairs frame t of the indices with
      frame t + delay of the data, for the T - delay frames where both exist. */
  function RestrictWithDelay(data: Frames, idx: Neighbours, n: nat, individual: Option<nat>, delay: int): (r: Result<Restricted>)
    requires Tracks(data, idx, n)
    requires individual.Some? ==> individual.value < n
    ensures r.Err? <==> delay < 0
    ensures delay == 0 ==> r == Ok(Gather(data, idx, individual))
    ensures r.Ok? ==> r.value.AllIndividuals? == individual.None?
    ensures r.Ok? ==> r.value.Length() == if delay < |data| then |data| - delay else 0
    ensures r.Ok? && individual.None? ==>
      forall t, i, s :: 0 <= t < r.value.Length() && 0 <= i < n && 0 <= s < |idx[t][i]| ==>
        |r.value.all[t]| == n && |r.value.all[t][i]| == |idx[t][i]| &&
        r.value.all[t][i][s] == data[t + delay][idx[t][i][s]]
    ensures r.Ok? && individual.Some? ==>
      forall t, s :: 0 <= t < r.value.Length() && 0 <= s < |idx[t][individual.value]| ==>
        |r.value.one[t]| == |idx[t][individual.value]| &&
        r.value.one[t][s] == data[t + delay][idx[t][individual.value][s]]
  {
    if delay == 0 then
      Ok(Gather(data, idx, individual))
    else if delay > 0 then
      Ok(Delayed(data, idx, n, individual, delay))
    else
      Err(NotImplemented)
  }

  /** `sweep_delays`: entry d is `restrict_with_delay(delay=d)` cut to the first
      T - maxDelay frames, the window that every delay below maxDelay covers. */
  function Sweep(data: Frames, idx: Neighbours, n: nat, maxDelay: nat, individual: Option<nat>): (r: seq<Restricted>)
    requires Tracks(data, idx, n) && maxDelay <= |data|
    requires individual.Some? ==> individual.value < n
    ensures |r| == maxDelay
    ensures forall d :: 0 <= d < maxDelay ==>
      r[d] == RestrictWithDelay(data, idx, n, individual, d).value.Head(|data| - maxDelay)
    ensures forall d :: 0 <= d < maxDelay ==>
      r[d].AllIndividuals? == individual.None? && r[d].Length() == |data| - maxDelay
  {
    seq(maxDelay, d requires 0 <= d < maxDelay =>
      RestrictWithDelay(data, idx, n, individual, d).value.Head(|data| - maxDelay))
  }

  /** Entry d of the sweep pairs frame t of the indices with frame t + d of the
      data, for every frame t of the common window. */
  lemma SweepGathersDelayedFrames(data: Frames, idx: Neighbours, n: nat, maxDelay: nat, individual: Option<nat>)
    requires Tracks(data, idx, n) && maxDelay <= |data|
    requires individual.Some? ==> individual.value < n
    ensures individual.None? ==>
      forall d, t, i, s :: 0 <= d < maxDelay && 0 <= t < |data| - maxDelay && 0 <= i < n && 0 <= s < |idx[t][i]| ==>
        var r := Sweep(data, idx, n, maxDelay, individual);
        |r[d].all| == |data| - maxDelay && |r[d].all[t]| == n && |r[d].all[t][i]| == |idx[t][i]| &&
        r[d].all[t][i][s] == data[t + d][idx[t][i][s]]
    ensures individual.Some? ==>
      forall d, t, s :: 0 <= d < maxDelay && 0 <= t < |data| - maxDelay && 0 <= s < |idx[t][individual.value]| ==>
        var r := Sweep(data, idx, n, maxDelay, individual);
        |r[d].one| == |data| - maxDelay && |r[d].one[t]| == |idx[t][individual.value]| &&
        r[d].one[t][s] == data[t + d][idx[t][individual.value][s]]
  {
    var r := Sweep(data, idx, n, maxDelay, individual);
    var window := |data| - maxDelay;
    forall d | 0 <= d < maxDelay
      ensures individual.None? ==>
        forall t, i, s :: 0 <= t < window && 0 <= i < n && 0 <= s < |idx[t][i]| ==>
          |r[d].all| == window && |r[d].all[t]| == n && |r[d].all[t][i]| == |idx[t][i]| &&
          r[d].all[t][i][s] == data[t + d][idx[t][i][s]]
      ensures individual.Some? ==>
        forall t, s :: 0 <= t < window && 0 <= s < |idx[t][individual.value]| ==>
          |r[d].one| == window && |r[d].one[t]| == |idx[t][individual.value]| &&
          r[d].one[t][s] == data[t + d][idx[t][individual.value][s]]
    {
      var full := RestrictWithDelay(data, idx, n, individual, d).value;
      assert r[d] == full.Head(window);
    }
  }

  /** `sweep_delays`, filling a preallocated output one delay at a time. */
  method SweepDelays(data: Frames, idx: Neighbours, n: nat, maxDelay: nat, individual: Option<nat>)
    returns (output: array<Restricted>)
    requires Tracks(data, idx, n) && maxDelay <= |data|
    requires individual.Some? ==> individual.value < n
    ensures fresh(output)
    ensures output[..] == Sweep(data, idx, n, maxDelay, individual)
  {
    var totalTimeSteps := |data| - maxDelay;
    output := new Restricted[maxDelay];
    for delay := 0 to maxDelay
      invariant forall d :: 0 <= d < delay ==>
        output[d] == RestrictWithDelay(data, idx, n, individual, d).value.Head(totalTimeSteps)
    {
      var delayedRestricted := RestrictWithDelay(data, idx, n, individual, delay);
      output[delay] := delayedRestricted.value.Head(totalTimeSteps);
    }
  }
}
