# Delayed social-context aggregation (trajectorytools `leadership`)

A Dafny model of the delayed, neighbour-restricted aggregation routines of
trajectorytools' `socialcontext/leadership.py`, with proofs of what they compute.

The routines work on multi-individual trajectory data:

- `restrict_with_delay` shifts a data stream (time x individual x coordinate) by a
  delay against a neighbour-index stream (time x individual x slot). It then gathers
  each individual's neighbours' data.
- `sweep_delays` stacks that result for every delay below `max_delay`, cut to the
  common window of T - max_delay frames.
- `sweep_delayed_orientation_with_neighbours` projects each individual's orientation
  onto the polarization of its delayed neighbours.
- The three `fleshout_with_delay*` strategies scatter, for one frame, the per-neighbour
  dot products of a swept signal with each individual's orientation. The result is a
  delay x individual x individual matrix.
- `give_connection_matrix` marks one frame's neighbour pairs.
- `fleshout_with_delay` and the two `sliding_average_fleshout_with_delay*` routines
  average the per-frame matrices. They use an explicit frame list, uniform sliding
  windows, or sliding windows normalised by connection counts.

Modules follow that structure:

- `Tensors`: nested-sequence tensors over exact reals, the dot product, Python `sum`
  folds and means.
- `Scatter`: the two meanings of "add to the targeted cells" and numpy's buffered
  scatter on arrays.
- `Restriction`: `restrict`, `restrict_with_delay`, `sweep_delays`.
- `Projection`: `sweep_delayed_orientation_with_neighbours`.
- `Fleshout`: the three per-frame strategies and `give_connection_matrix`.
- `Averaging`: `fleshout_with_delay` and the two sliding averages.

How the source is rendered:

- The per-frame strategies and `give_connection_matrix` update a buffer in place. They
  are methods over `array3<real>` / `array2<real>`. Their optional `inplace` argument is
  a nullable array: `null` allocates zeros, otherwise the caller's buffer is accumulated
  into. `fleshout_with_delay_slow_`, `fleshout_with_delay_` and `give_connection_matrix`
  return that buffer. `fleshout_with_delay_f` returns a transposed view of it
  (leadership.py:95); the model returns a fresh transposed copy (see "Left out").
- Each method is proved against a cell function: `LoopCell`, `FleshoutCell`,
  `FBufferCell`, `ConnectionCell`.
- The value-level routines (restriction, sweep, projection, sums over frames) are
  functions. `sweep_delays` and `sliding_average_fleshout_with_delay2`, which loop, are
  methods proved against those functions.

## Repeated targets and the `_f` layout

- **Repeated targets.** Only the explicit loop of `fleshout_with_delay_slow_`
  (leadership.py:68) adds once per slot, so a neighbour that fills two slots is
  counted twice.
  - `fleshout_with_delay_`, `fleshout_with_delay_f` and `give_connection_matrix`
    update cells through numpy's fancy-indexed `x[..., row] += v` (leadership.py:79,
    :94, :106). numpy reads all targets, adds, and writes back, so a repeated target
    receives one slot's value, not the sum.
  - `BufferedAdd` models that as the last write, and `RepeatedTargetCountsOnce` shows
    the difference from `LoopAdd` on the row `[0, 0]`.
  - The strategies agree on rows without repeats (`SlowAgreesWithPerIndividual`).
  - One frame's connection matrix is therefore 0/1 whatever the row holds
    (`ConnectionCellMarksNeighbours`). This agrees with the comment at
    leadership.py:125, which calls that matrix binary.
- **`_f` is transposed.** `fleshout_with_delay_f` accumulates into an
  individual x individual x delay buffer and returns `np.transpose(inplace, (2, 1, 0))`
  (leadership.py:95). Its (t, j, i) cell is therefore the other strategies' (t, i, j)
  cell (`FleshoutWithDelayF`, `FBufferIsTransposed`).

## Model

| member | source | states |
|---|---|---|
| Scatter.AbsentTargetGetsNothing | trajectorytools/socialcontext/leadership.py:64-80 | a cell that no slot of the row targets receives nothing, under loop `+=` and under numpy's buffered `+=` |
| Scatter.DistinctRowsAgree | trajectorytools/socialcontext/leadership.py:64-80 | on a row without repeated targets, the explicit loop and numpy's buffered update add the same amount to every cell |
| Scatter.BufferedAddIsLastWrite | trajectorytools/socialcontext/leadership.py:79 | a buffered update gives a targeted cell the value of the last slot that names it, and no later slot names it |
| Scatter.BufferedOnesMarkTargets | trajectorytools/socialcontext/leadership.py:106 | adding ones through a buffered update gives 1 exactly for the cells the row names, 0 elsewhere |
| Scatter.LoopOnesCountTargets | trajectorytools/socialcontext/leadership.py:68 | adding ones through an explicit loop counts how often a cell is named (its multiplicity in the row) |
| Scatter.RepeatedTargetCountsOnce | trajectorytools/socialcontext/leadership.py:79 | with row [0, 0] and values [1, 1] the loop adds 2 and the buffered update 1: the two meanings differ on repeats |
| Scatter.ScatterAdd | trajectorytools/socialcontext/leadership.py:79 | `m[:, i, row] += vals` adds the buffered amount to each of individual i's cells per delay and leaves every other cell unchanged |
| Scatter.ScatterAddRows | trajectorytools/socialcontext/leadership.py:94 | `buf[i, row] += vals` on an individual x individual x delay buffer adds the buffered amount of each delay column to individual i's cells, nothing else |
| Tensors.CellSum3Concat | trajectorytools/socialcontext/leadership.py:110-112 | summing a concatenation of two lists of matrices equals adding the two lists' sums |
| Tensors.CellSumZero | trajectorytools/socialcontext/leadership.py:129-132 | a sum of non-negative cells is non-negative, and it is zero if and only if every summand is zero |
| Tensors.CellSum3OfZeros | trajectorytools/socialcontext/leadership.py:128 | a sum of zero cells is zero |
| Restriction.Restricted.Head | trajectorytools/socialcontext/leadership.py:40 | `x[:k]` keeps the kind of the restriction and its first min(k, length) frames |
| Restriction.Restrict | trajectorytools/socialcontext/leadership.py:24 | the imported `restrict`: slot s of individual i at frame t holds the data of that slot's neighbour at the same frame t |
| Restriction.RestrictOne | trajectorytools/socialcontext/leadership.py:24 | the imported `restrict` for one individual: slot s at frame t holds that neighbour's data at frame t |
| Restriction.Gather | trajectorytools/socialcontext/leadership.py:24 | `restrict(..., individual=individual)`: with no individual, every individual's slots at frame t hold the data of its neighbours at frame t; with one, that individual's slots do; one frame per index frame |
| Restriction.Delayed | trajectorytools/socialcontext/leadership.py:17-24 | the delayed restriction keeps the individual selector's kind, has max(T - delay, 0) frames, and has one row per individual and slot |
| Restriction.DelayedRestrictsShiftedStreams | trajectorytools/socialcontext/leadership.py:17-24 | for 0 < delay < T, the delayed restriction equals `restrict(data[delay:], indices[:-delay])`, and those sliced streams can be gathered |
| Restriction.RestrictWithDelay | trajectorytools/socialcontext/leadership.py:5-24 | fails exactly for a negative delay; for delay 0 it equals `restrict(data, indices)`; otherwise it has max(T - delay, 0) frames, and frame t gathers data[t + delay] through indices[t], for all individuals or one |
| Restriction.Sweep | trajectorytools/socialcontext/leadership.py:26-41 | entry d, for every d below max_delay, is `restrict_with_delay(delay=d)` cut to its first T - max_delay frames, of the selector's kind |
| Restriction.SweepGathersDelayedFrames | trajectorytools/socialcontext/leadership.py:38-40 | entry d at frame t of the sweep gathers data[t + d] through indices[t], for all individuals or one |
| Restriction.SweepDelays | trajectorytools/socialcontext/leadership.py:26-41 | the loop filling a fresh output array delay by delay produces exactly the sweep |
| Projection.SweptGroupsAreDelayedNeighbours | trajectorytools/socialcontext/leadership.py:49-50 | the sweep's group for individual i at frame t and delay d is the orientations of i's neighbours at frame t + d |
| Projection.SweepDelayedOrientationWithNeighbours | trajectorytools/socialcontext/leadership.py:43-56 | returns the sweep of the orientations and a delay x (T - max_delay) x individual signal whose (d, t, i) entry is the dot product of i's orientation at t with the polarization of its neighbours' orientations at t + d |
| Projection.Project | trajectorytools/socialcontext/leadership.py:51-54 | the einsum of the orientations with the polarized groups: entry (d, t, i) is the dot product of orientation[t][i] with the polarization of group (d, t, i), one row per frame of the group stream |
| Fleshout.FleshoutFrame | trajectorytools/socialcontext/leadership.py:71-80 | one frame's fleshout from zeros is a delay x individual x individual matrix whose cells are the per-individual strategy's buffered sums |
| Fleshout.SlotProjection | trajectorytools/socialcontext/leadership.py:77-79 | the einsum 'ijk,k->ij': entry (t, s) is the dot product of individual i's swept row for slot s at delay t with i's orientation at the frame |
| Fleshout.FrameProjection | trajectorytools/socialcontext/leadership.py:88-91 | the einsum 'tink,ik->int': entry (i, s, t) is the same dot product, laid out individual x slot x delay for all individuals at once |
| Fleshout.SlowAgreesWithPerIndividual | trajectorytools/socialcontext/leadership.py:58-80 | on a frame whose neighbour row has no repeats, the loop strategy and the per-individual strategy add the same amount to every cell |
| Fleshout.NeighbourCellIsSlotDot | trajectorytools/socialcontext/leadership.py:64-79 | on a row without repeats, cell (t, i, target of slot s) is the dot product of the swept row of slot s at delay t with i's orientation, in both strategies |
| Fleshout.NonNeighbourCellGetsNothing | trajectorytools/socialcontext/leadership.py:58-95 | a cell (i, j) where j is not among i's neighbours receives nothing, in all three strategies |
| Fleshout.FBufferIsTransposed | trajectorytools/socialcontext/leadership.py:91-95 | the `_f` buffer's cell (i, j, t) equals the per-individual strategy's cell (t, i, j) |
| Fleshout.AccumulateSlow | trajectorytools/socialcontext/leadership.py:64-68 | the explicit double loop adds, to every cell, the sum over i's slots naming j of their dot products |
| Fleshout.AccumulatePerIndividual | trajectorytools/socialcontext/leadership.py:76-79 | the per-individual loop adds to every cell the buffered amount of i's slot projections |
| Fleshout.AccumulateF | trajectorytools/socialcontext/leadership.py:88-94 | the `_f` loop adds to every buffer cell (i, j, t) the buffered amount of `a[i]`'s delay-t column |
| Fleshout.FleshoutWithDelaySlow | trajectorytools/socialcontext/leadership.py:58-69 | with no buffer it returns a fresh delay x N x N matrix of loop sums; with one, it adds the loop sums to that buffer and returns it |
| Fleshout.FleshoutWithDelayPerIndividual | trajectorytools/socialcontext/leadership.py:71-80 | the same for the per-individual strategy's buffered sums |
| Fleshout.FleshoutWithDelayF | trajectorytools/socialcontext/leadership.py:82-95 | accumulates into the individual x individual x delay buffer and returns a fresh (2, 1, 0) transpose of it; started from zeros its (t, j, i) cell is the per-individual strategy's (t, i, j) cell |
| Fleshout.ConnectionMatrix | trajectorytools/socialcontext/leadership.py:99-107 | one frame's connection matrix is N x N with the buffered count of each cell |
| Fleshout.ConnectionCellMarksNeighbours | trajectorytools/socialcontext/leadership.py:105-106 | cell (i, j) of one frame's connection matrix is 1 when j is among i's neighbours and 0 otherwise; a plain loop would count repeats instead |
| Fleshout.MarkConnections | trajectorytools/socialcontext/leadership.py:105-106 | the loop over individuals adds each frame cell's connection mark to the buffer |
| Fleshout.GiveConnectionMatrix | trajectorytools/socialcontext/leadership.py:99-107 | with no buffer it returns fresh zeros plus the marks; with one, it adds the marks to it and returns the same buffer |
| Averaging.MeanFleshout | trajectorytools/socialcontext/leadership.py:113 | the mean over the listed frames times the number of frames is the sum of their fleshouts |
| Averaging.FleshoutList | trajectorytools/socialcontext/leadership.py:124 | entry k of the per-frame list is the fleshout of the k-th listed frame, a delay x individual x individual matrix (the same comprehension is at line 117) |
| Averaging.ConnectionList | trajectorytools/socialcontext/leadership.py:126 | entry k of the per-frame list is the connection matrix of the k-th listed frame, an individual x individual matrix |
| Averaging.FleshoutSumConcat | trajectorytools/socialcontext/leadership.py:109-113 | summing the fleshout over one frame list then another equals summing it over their concatenation |
| Averaging.ConnectionSumCountsNeighbourFrames | trajectorytools/socialcontext/leadership.py:124-129 | summed over frames, cell (i, j) of the connection matrices is the number of frames in which j is among i's neighbours, at most the number of frames |
| Averaging.NeighbourFramesConcat | trajectorytools/socialcontext/leadership.py:126-130 | the number of frames of f1 + f2 in which j neighbours i is the number in f1 plus the number in f2 |
| Averaging.ConnectionSumConcat | trajectorytools/socialcontext/leadership.py:126-130 | summing the connection matrices over f1 + f2 gives, cell by cell, the sum over f1 plus the sum over f2 |
| Averaging.UnconnectedPairSumsToZero | trajectorytools/socialcontext/leadership.py:128-132 | a pair never connected in the listed frames has a zero fleshout sum at every delay |
| Averaging.FleshoutWithDelay | trajectorytools/socialcontext/leadership.py:109-113 | accumulating frame by frame into one buffer and dividing by the number of frames yields the mean fleshout over the frame list |
| Averaging.WindowLists | trajectorytools/socialcontext/leadership.py:117-118 | slicing the per-frame lists of the whole range at window w gives the lists of the window's own frames |
| Averaging.SlidingAverage | trajectorytools/socialcontext/leadership.py:115-118 | there are max(end - start, 0) windows, and window w is the mean fleshout over frames start + w to start + w + count - 1 |
| Averaging.DivideWhereConnected | trajectorytools/socialcontext/leadership.py:132 | a slice's cells are divided by their connection count where it is positive and kept elsewhere |
| Averaging.PairConnections | trajectorytools/socialcontext/leadership.py:128-132 | for each pair, the connection sum is the count of frames where it was connected, and with count 0 its fleshout sum is 0 |
| Averaging.DivideSlices | trajectorytools/socialcontext/leadership.py:131-132 | the loop over delays divides every delay slice where the pair is connected and keeps it elsewhere |
| Averaging.NormaliseWindow | trajectorytools/socialcontext/leadership.py:127-133 | one window's summed fleshout divided slice by slice is the connection-normalised sum |
| Averaging.SlidingAverage2 | trajectorytools/socialcontext/leadership.py:120-134 | there are max(end - start, 0) windows; window w's cell is the window's fleshout sum divided by the number of frames in which the pair was connected if that is positive, and otherwise the sum itself, which is then 0 |

## Left out

- `restrict` is imported from `trajectorytools/socialcontext/socialcontext.py`. That file is not part of this model. `Restriction.Restrict` and `Restriction.RestrictOne` model its documented contract: a frame-aligned gather of the neighbours' rows.
- `tt.collective.polarization` is a parameter of `SweepDelayedOrientationWithNeighbours`. It is taken as any reduction that maps a group of c-coordinate vectors to one c-coordinate vector (`Projection.ReducesTo`); nothing else about it is assumed. `tt.dot` is the Euclidean dot product `Tensors.Dot`.
- Floating point: values are exact reals, so rounding, NaN and infinities are not modelled. On rows without repeated targets, the loop and per-individual strategies are proved exactly equal, and `_f` exactly their per-delay transpose; there is no tolerance.
- numpy does not specify which write survives when a fancy-indexed `+=` names a target twice. The model takes the last slot's write.
- Fleshout.FleshoutWithDelayF: `fleshout_with_delay_f` returns a transposed view of its buffer. The model returns a fresh copy with the same contents. Later writes through the caller's buffer are therefore not reflected in it.
- `fleshout_with_delay`'s loop (leadership.py:110-112) and the list comprehensions of both sliding averages (leadership.py:117, :124) call the per-individual strategy. `SlidingAverage` and `SlidingAverage2` build their per-frame lists with `Fleshout.FleshoutFrame` and `Fleshout.ConnectionMatrix`, the values that `fleshout_with_delay_` and `give_connection_matrix` are proved to return from zeros.
- Shape errors that numpy raises are excluded by preconditions rather than modelled as error results:
  - out-of-range neighbour indices or frames;
  - negative neighbour indices or frames, which numpy wraps to count from the end instead of rejecting; the model types them as `nat` or bounds them by `0 <=`;
  - a sweep whose time axis does not cover the frame;
  - `max_delay > T`;
  - an empty frame list for `fleshout_with_delay`;
  - a zero window size when there is at least one window.
  Only a negative delay's `NotImplementedError` is an error result.
- `end_frame=None` (the default) makes both sliding averages raise a `TypeError`, so the model takes `end_frame` as an integer. The unused `force_one_thread` parameter is dropped.
- Default arguments are not modelled: callers pass every argument. The defaults are `individual=None` and `delay=0` (leadership.py:5, :26), and `start_frame=0` and `num_frames_to_average=50` (leadership.py:115, :120). `Restriction.Sweep` and `Restriction.SweepDelays` take `individual` as an `Option`, passed `None` for the default.
- Array dtypes, `np.empty` contents and the performance of the strategies are not modelled.
- `tests/test_trajectories.py` tests trajectory construction, which is outside this core.
