/** Averaging the per-frame fleshout over several frames: the mean over an
    explicit list of frames (`fleshout_with_delay`), the mean over every window
    of a sliding range (`sliding_average_fleshout_with_delay`), and the sum
    over every window normalised by how often each pair was connected
    (`sliding_average_fleshout_with_delay2`). All three use the per-individual
    strategy (`fleshout_with_delay_`) for each frame. */
module Averaging {
  import opened Tensors
  import opened Scatter
  import opened Fleshout

  /** Every listed frame is an index frame with n individuals whose neighbour
      identities are individuals. */
  predicate IndexFrames(idx: Neighbours, frames: seq<nat>, n: nat)
  {
    forall k :: 0 <= k < |frames| ==> frames[k] < |idx| && |idx[frames[k]]| == n && RowsShape(idx[frames[k]])
  }

  /** Every listed frame can be fleshed out and has n individuals. */
  predicate FramesShape(data: Frames, idx: Neighbours, sweep: Swept, frames: seq<nat>, n: nat)
  {
    && IndexFrames(idx, frames, n)
    && forall k :: 0 <= k < |frames| ==> FrameShape(data, idx, sweep, frames[k]) && |data[frames[k]]| == n
  }

  /** `[fleshout_with_delay_(data, indices, sweep, frame) for frame in frames]`. */
  function FleshoutList(data: Frames, idx: Neighbours, sweep: Swept, frames: seq<nat>, n: nat): (ms: seq<Mat3>)
    requires FramesShape(data, idx, sweep, frames, n)
    ensures |ms| == |frames|
    ensures forall k :: 0 <= k < |frames| ==>
      IsMat3(ms[k], |sweep|, n) && ms[k] == FleshoutFrame(data, idx, sweep, frames[k])
  {
    seq(|frames|, k requires 0 <= k < |frames| => FleshoutFrame(data, idx, sweep, frames[k]))
  }

  /** `[give_connection_matrix(indices[frame]) for frame in frames]`. */
  function ConnectionList(idx: Neighbours, frames: seq<nat>, n: nat): (cs: seq<Mat>)
    requires IndexFrames(idx, frames, n)
    ensures |cs| == |frames|
    ensures forall k :: 0 <= k < |frames| ==> IsMat(cs[k], n) && cs[k] == ConnectionMatrix(idx[frames[k]])
  {
    seq(|frames|, k requires 0 <= k < |frames| => ConnectionMatrix(idx[frames[k]]))
  }

  /** The fleshout summed over the listed frames. */
  function FleshoutSum(data: Frames, idx: Neighbours, sweep: Swept, frames: seq<nat>, n: nat): (m: Mat3)
    requires FramesShape(data, idx, sweep, frames, n)
    ensures IsMat3(m, |sweep|, n)
  {
    Sum3(FleshoutList(data, idx, sweep, frames, n), |sweep|, n)
  }

  /** The fleshout averaged over the listed frames. */
  function MeanFleshout(data: Frames, idx: Neighbours, sweep: Swept, frames: seq<nat>, n: nat): (m: Mat3)
    requires |frames| > 0 && FramesShape(data, idx, sweep, frames, n)
    ensures IsMat3(m, |sweep|, n)
    ensures forall t, i, j :: 0 <= t < |sweep| && 0 <= i < n && 0 <= j < n ==>
      m[t][i][j] * |frames| as real == FleshoutSum(data, idx, sweep, frames, n)[t][i][j]
  {
    Mean3(FleshoutSum(data, idx, sweep, frames, n), |sweep|, n, |frames|)
  }

  /** The connection matrices summed over the listed frames. */
  function ConnectionSum(idx: Neighbours, frames: seq<nat>, n: nat): (c: Mat)
    requires IndexFrames(idx, frames, n)
    ensures IsMat(c, n)
  {
    Sum(ConnectionList(idx, frames, n), n)
  }

  /** The number of listed frames in which j is among i's neighbours. */
  function NeighbourFrames(idx: Neighbours, frames: seq<nat>, n: nat, i: nat, j: nat): (r: nat)
    requires IndexFrames(idx, frames, n) && i < n
  {
    if |frames| == 0 then 0
    else NeighbourFrames(idx, frames[..|frames| - 1], n, i, j) + (if j in idx[frames[|frames| - 1]][i] then 1 else 0)
  }

  /** Two lists of frames that can each be fleshed out can be together. */
  lemma FramesShapeConcat(data: Frames, idx: Neighbours, sweep: Swept, f1: seq<nat>, f2: seq<nat>, n: nat)
    requires FramesShape(data, idx, sweep, f1, n) && FramesShape(data, idx, sweep, f2, n)
    ensures FramesShape(data, idx, sweep, f1 + f2, n)
    ensures FleshoutList(data, idx, sweep, f1 + f2, n) == FleshoutList(data, idx, sweep, f1, n) + FleshoutList(data, idx, sweep, f2, n)
  {
    var f := f1 + f2;
    forall k | 0 <= k < |f|
      ensures f[k] < |idx| && |idx[f[k]]| == n && RowsShape(idx[f[k]])
      ensures FrameShape(data, idx, sweep, f[k]) && |data[f[k]]| == n
    {
      if k >= |f1| {
        assert f[k] == f2[k - |f1|];
      }
    }
    var l1, l2 := FleshoutList(data, idx, sweep, f1, n), FleshoutList(data, idx, sweep, f2, n);
    var l := FleshoutList(data, idx, sweep, f, n);
    forall k | 0 <= k < |l| ensures l[k] == (l1 + l2)[k] {
      if k >= |f1| {
        assert f[k] == f2[k - |f1|];
      }
    }
  }

  /** Summing the fleshout over one list of frames and then another is summing
      it over both. */
  lemma FleshoutSumConcat(data: Frames, idx: Neighbours, sweep: Swept, f1: seq<nat>, f2: seq<nat>, n: nat,
                          t: nat, i: nat, j: nat)
    requires FramesShape(data, idx, sweep, f1, n) && FramesShape(data, idx, sweep, f2, n)
    requires t < |sweep| && i < n && j < n
    ensures FramesShape(data, idx, sweep, f1 + f2, n)
    ensures FleshoutSum(data, idx, sweep, f1 + f2, n)[t][i][j] ==
            FleshoutSum(data, idx, sweep, f1, n)[t][i][j] + FleshoutSum(data, idx, sweep, f2, n)[t][i][j]
  {
    FramesShapeConcat(data, idx, sweep, f1, f2, n);
    CellSum3Concat(FleshoutList(data, idx, sweep, f1, n), FleshoutList(data, idx, sweep, f2, n), |sweep|, n, t, i, j);
  }

  /** Summed over frames, the connection matrices count, for each pair (i, j),
      the frames in which j is among i's neighbours. */
  lemma {:induction false} ConnectionSumCountsNeighbourFrames(idx: Neighbours, frames: seq<nat>, n: nat, i: nat, j: nat)
    requires IndexFrames(idx, frames, n) && i < n && j < n
    ensures ConnectionSum(idx, frames, n)[i][j] == NeighbourFrames(idx, frames, n, i, j) as real
    ensures NeighbourFrames(idx, frames, n, i, j) <= |frames|
  {
    if |frames| > 0 {
      var prefix := frames[..|frames| - 1];
      ConnectionSumCountsNeighbourFrames(idx, prefix, n, i, j);
      assert ConnectionList(idx, frames, n)[..|frames| - 1] == ConnectionList(idx, prefix, n);
      ConnectionCellMarksNeighbours(idx[frames[|frames| - 1]], i, j);
    }
  }

  /** Counting the frames of one list and then another in which j neighbours i
      is counting them over both lists. */
  lemma {:induction false} NeighbourFramesConcat(idx: Neighbours, f1: seq<nat>, f2: seq<nat>, n: nat, i: nat, j: nat)
    requires IndexFrames(idx, f1, n) && IndexFrames(idx, f2, n) && i < n
    ensures IndexFrames(idx, f1 + f2, n)
    ensures NeighbourFrames(idx, f1 + f2, n, i, j) == NeighbourFrames(idx, f1, n, i, j) + NeighbourFrames(idx, f2, n, i, j)
  {
    forall k | 0 <= k < |f1 + f2|
      ensures (f1 + f2)[k] < |idx| && |idx[(f1 + f2)[k]]| == n && RowsShape(idx[(f1 + f2)[k]])
    {
      if k >= |f1| {
        assert (f1 + f2)[k] == f2[k - |f1|];
      }
    }
    if |f2| == 0 {
      assert f1 + f2 == f1;
    } else {
      var prefix := f2[..|f2| - 1];
      assert (f1 + f2)[..|f1 + f2| - 1] == f1 + prefix;
      NeighbourFramesConcat(idx, f1, prefix, n, i, j);
    }
  }

  /** Summing the connection matrices over one list of frames and then another
      is summing them over both. */
  lemma ConnectionSumConcat(idx: Neighbours, f1: seq<nat>, f2: seq<nat>, n: nat, i: nat, j: nat)
    requires IndexFrames(idx, f1, n) && IndexFrames(idx, f2, n) && i < n && j < n
    ensures IndexFrames(idx, f1 + f2, n)
    ensures ConnectionSum(idx, f1 + f2, n)[i][j] == ConnectionSum(idx, f1, n)[i][j] + ConnectionSum(idx, f2, n)[i][j]
  {
    NeighbourFramesConcat(idx, f1, f2, n, i, j);
    ConnectionSumCountsNeighbourFrames(idx, f1 + f2, n, i, j);
    ConnectionSumCountsNeighbourFrames(idx, f1, n, i, j);
    ConnectionSumCountsNeighbourFrames(idx, f2, n, i, j);
  }

  /** A pair that is never connected in the listed frames accumulates no fleshout. */
  lemma UnconnectedPairSumsToZero(data: Frames, idx: Neighbours, sweep: Swept, frames: seq<nat>, n: nat,
                                  t: nat, i: nat, j: nat)
    requires FramesShape(data, idx, sweep, frames, n) && t < |sweep| && i < n && j < n
    requires ConnectionSum(idx, frames, n)[i][j] == 0.0
    ensures FleshoutSum(data, idx, sweep, frames, n)[t][i][j] == 0.0
  {
    var cs := ConnectionList(idx, frames, n);
    forall k | 0 <= k < |frames| ensures cs[k][i][j] == if j in idx[frames[k]][i] then 1.0 else 0.0 {
      ConnectionCellMarksNeighbours(idx[frames[k]], i, j);
    }
    CellSumZero(cs, n, i, j);
    var fs := FleshoutList(data, idx, sweep, frames, n);
    forall k | 0 <= k < |frames| ensures fs[k][t][i][j] == 0.0 {
      NonNeighbourCellGetsNothing(data, idx, sweep, frames[k], t, i, j);
    }
    CellSum3OfZeros(fs, |sweep|, n, t, i, j);
  }

  /** `fleshout_with_delay`: accumulates the first frame into a fresh buffer and
      every later frame into that buffer, then divides by the number of frames. */
  method FleshoutWithDelay(data: Frames, idx: Neighbours, sweep: Swept, frames: seq<nat>, n: nat)
    returns (r: array3<real>)
    requires |frames| > 0 && FramesShape(data, idx, sweep, frames, n)
    ensures fresh(r)
    ensures r.Length0 == |sweep| && r.Length1 == n && r.Length2 == n
    ensures forall t, i, j :: 0 <= t < r.Length0 && 0 <= i < r.Length1 && 0 <= j < r.Length2 ==>
      r[t, i, j] == MeanFleshout(data, idx, sweep, frames, n)[t][i][j]
  {
    var delays := |sweep|;
    ghost var list := FleshoutList(data, idx, sweep, frames, n);
    var inplace := FleshoutWithDelayPerIndividual(data, idx, sweep, frames[0], null);
    assert list[..1][..0] == [];
    for k := 1 to |frames|
      invariant fresh(inplace)
      invariant inplace.Length0 == delays && inplace.Length1 == n && inplace.Length2 == n
      invariant forall t, i, j :: 0 <= t < delays && 0 <= i < n && 0 <= j < n ==>
        inplace[t, i, j] == CellSum3(list[..k], delays, n, t, i, j)
    {
      inplace := FleshoutWithDelayPerIndividual(data, idx, sweep, frames[k], inplace);
      assert list[..k + 1][..k] == list[..k];
    }
    assert list[..|frames|] == list;
    r := new real[delays, n, n];
    forall t, i, j | 0 <= t < delays && 0 <= i < n && 0 <= j < n {
      r[t, i, j] := inplace[t, i, j] / |frames| as real;
    }
  }

  /** The number of windows of a sliding range: `len(range(end - start))`. */
  function Windows(start: nat, end: int): (r: nat)
  {
    if end > start then end - start else 0
  }

  /** The frames of window w: `count` frames from `start + w`. */
  function Window(start: nat, w: nat, count: nat): (frames: seq<nat>)
    ensures |frames| == count
  {
    Range(start + w, start + w + count)
  }

  /** Slicing the per-frame lists of the whole range at window w gives the
      per-frame lists of that window's frames. */
  lemma WindowLists(data: Frames, idx: Neighbours, sweep: Swept, start: nat, end: int, count: nat, n: nat)
    requires FramesShape(data, idx, sweep, Range(start, end + count), n)
    ensures forall w :: 0 <= w < Windows(start, end) ==>
      && FramesShape(data, idx, sweep, Window(start, w, count), n)
      && FleshoutList(data, idx, sweep, Range(start, end + count), n)[w..w + count] ==
         FleshoutList(data, idx, sweep, Window(start, w, count), n)
      && ConnectionList(idx, Range(start, end + count), n)[w..w + count] == ConnectionList(idx, Window(start, w, count), n)
  {
    var frames := Range(start, end + count);
    forall w | 0 <= w < Windows(start, end)
      ensures FramesShape(data, idx, sweep, Window(start, w, count), n)
      ensures FleshoutList(data, idx, sweep, frames, n)[w..w + count] == FleshoutList(data, idx, sweep, Window(start, w, count), n)
      ensures ConnectionList(idx, frames, n)[w..w + count] == ConnectionList(idx, Window(start, w, count), n)
    {
      var window := Window(start, w, count);
      assert window == frames[w..w + count];
    }
  }

  /** `sliding_average_fleshout_with_delay`: window w is the mean fleshout over
      the frames start + w, ..., start + w + count - 1. Dividing by count is
      only reached when there is a window, so count may be 0 when there is none. */
  function SlidingAverage(data: Frames, idx: Neighbours, sweep: Swept, start: nat, end: int, count: nat, n: nat)
    : (r: seq<Mat3>)
    requires count > 0 || end <= start
    requires FramesShape(data, idx, sweep, Range(start, end + count), n)
    ensures |r| == Windows(start, end)
    ensures forall w :: 0 <= w < |r| ==>
      FramesShape(data, idx, sweep, Window(start, w, count), n) &&
      r[w] == MeanFleshout(data, idx, sweep, Window(start, w, count), n)
  {
    WindowLists(data, idx, sweep, start, end, count, n);
    var fleshoutList := FleshoutList(data, idx, sweep, Range(start, end + count), n);
    seq(Windows(start, end), w requires 0 <= w < Windows(start, end) =>
      Mean3(Sum3(fleshoutList[w..w + count], |sweep|, n), |sweep|, n, count))
  }

  /** `sum_fleshout[t][np.where(sum_connections > 0)] /= sum_connections[...]`:
      divides the connected cells of one delay slice by their connection count. */
  function DivideWhereConnected(slice: Mat, connections: Mat, n: nat): (r: Mat)
    requires IsMat(slice, n) && IsMat(connections, n)
    ensures IsMat(r, n)
    ensures forall i, j :: 0 <= i < n && 0 <= j < n ==>
      r[i][j] == if connections[i][j] > 0.0 then slice[i][j] / connections[i][j] else slice[i][j]
  {
    seq(n, i requires 0 <= i < n => seq(n, j requires 0 <= j < n =>
      if connections[i][j] > 0.0 then slice[i][j] / connections[i][j] else slice[i][j]))
  }

  /** Over a list of frames, each pair's connection sum is the number of frames
      in which it was connected, and a pair with none has a zero fleshout sum. */
  lemma PairConnections(data: Frames, idx: Neighbours, sweep: Swept, frames: seq<nat>, n: nat)
    requires FramesShape(data, idx, sweep, frames, n)
    ensures forall i, j :: 0 <= i < n && 0 <= j < n ==>
      ConnectionSum(idx, frames, n)[i][j] == NeighbourFrames(idx, frames, n, i, j) as real
    ensures forall t, i, j :: 0 <= t < |sweep| && 0 <= i < n && 0 <= j < n && NeighbourFrames(idx, frames, n, i, j) == 0 ==>
      FleshoutSum(data, idx, sweep, frames, n)[t][i][j] == 0.0
  {
    forall i, j | 0 <= i < n && 0 <= j < n
      ensures ConnectionSum(idx, frames, n)[i][j] == NeighbourFrames(idx, frames, n, i, j) as real
    {
      ConnectionSumCountsNeighbourFrames(idx, frames, n, i, j);
    }
    forall t, i, j | 0 <= t < |sweep| && 0 <= i < n && 0 <= j < n && NeighbourFrames(idx, frames, n, i, j) == 0
      ensures FleshoutSum(data, idx, sweep, frames, n)[t][i][j] == 0.0
    {
      UnconnectedPairSumsToZero(data, idx, sweep, frames, n, t, i, j);
    }
  }

  /** What `sliding_average_fleshout_with_delay2` returns for a window of
      frames: for every delay, the fleshout summed over the frames and, where
      the pair (i, j) was connected in at least one of them, divided by the
      number of frames in which it was; a pair never connected keeps its sum,
      which is 0. */
  predicate NormalisedSum(data: Frames, idx: Neighbours, sweep: Swept, frames: seq<nat>, n: nat, m: Mat3)
    requires FramesShape(data, idx, sweep, frames, n)
  {
    && IsMat3(m, |sweep|, n)
    && forall t, i, j :: 0 <= t < |sweep| && 0 <= i < n && 0 <= j < n ==>
      var raw := FleshoutSum(data, idx, sweep, frames, n)[t][i][j];
      var connections := NeighbourFrames(idx, frames, n, i, j);
      && m[t][i][j] == (if connections > 0 then raw / connections as real else raw)
      && (connections == 0 ==> m[t][i][j] == 0.0)
  }

  /** The loop over delays of `sliding_average_fleshout_with_delay2`: every
      delay slice of the summed fleshout is divided where the pair was connected. */
  method DivideSlices(sumFleshout: Mat3, sumConnections: Mat, delays: nat, n: nat) returns (r: Mat3)
    requires IsMat3(sumFleshout, delays, n) && IsMat(sumConnections, n)
    ensures IsMat3(r, delays, n)
    ensures forall t, i, j :: 0 <= t < delays && 0 <= i < n && 0 <= j < n ==>
      r[t][i][j] == if sumConnections[i][j] > 0.0 then sumFleshout[t][i][j] / sumConnections[i][j] else sumFleshout[t][i][j]
  {
    r := sumFleshout;
    for t := 0 to delays
      invariant IsMat3(r, delays, n)
      invariant forall t', i, j :: 0 <= t' < delays && 0 <= i < n && 0 <= j < n ==>
        r[t'][i][j] ==
          if t' < t && sumConnections[i][j] > 0.0 then sumFleshout[t'][i][j] / sumConnections[i][j] else sumFleshout[t'][i][j]
    {
      r := r[t := DivideWhereConnected(r[t], sumConnections, n)];
    }
  }

  /** One window of `sliding_average_fleshout_with_delay2`: the summed
      fleshout and connections of the window's frames, divided slice by slice. */
  method NormaliseWindow(data: Frames, idx: Neighbours, sweep: Swept, frames: seq<nat>, n: nat,
                         sumFleshout: Mat3, sumConnections: Mat)
    returns (r: Mat3)
    requires FramesShape(data, idx, sweep, frames, n)
    requires sumFleshout == FleshoutSum(data, idx, sweep, frames, n)
    requires sumConnections == ConnectionSum(idx, frames, n)
    ensures NormalisedSum(data, idx, sweep, frames, n, r)
  {
    PairConnections(data, idx, sweep, frames, n);
    r := DivideSlices(sumFleshout, sumConnections, |sweep|, n);
  }

  /** `sliding_average_fleshout_with_delay2`: window w is the fleshout summed
      over the frames start + w, ..., start + w + count - 1, normalised pair by
      pair by the number of those frames in which the pair was connected. */
  method SlidingAverage2(data: Frames, idx: Neighbours, sweep: Swept, start: nat, end: int, count: nat, n: nat)
    returns (output: seq<Mat3>)
    requires count > 0 || end <= start
    requires FramesShape(data, idx, sweep, Range(start, end + count), n)
    ensures |output| == Windows(start, end)
    ensures forall w :: 0 <= w < |output| ==>
      FramesShape(data, idx, sweep, Window(start, w, count), n) &&
      NormalisedSum(data, idx, sweep, Window(start, w, count), n, output[w])
  {
    var frames := Range(start, end + count);
    var fleshoutList := FleshoutList(data, idx, sweep, frames, n);
    var connectionMatrixList := ConnectionList(idx, frames, n);
    WindowLists(data, idx, sweep, start, end, count, n);
    output := [];
    for w := 0 to Windows(start, end)
      invariant |output| == w
      invariant forall v :: 0 <= v < w ==>
        FramesShape(data, idx, sweep, Window(start, v, count), n) &&
        NormalisedSum(data, idx, sweep, Window(start, v, count), n, output[v])
    {
      var sumFleshout := Sum3(fleshoutList[w..w + count], |sweep|, n);
      var sumConnections := Sum(connectionMatrixList[w..w + count], n);
      var normalised := NormaliseWindow(data, idx, sweep, Window(start, w, count), n, sumFleshout, sumConnections);
      output := output + [normalised];
    }
  }
}
