/** One frame of the fleshout: the per-neighbour-slot dot products of a swept
    signal with each individual's orientation, scattered into a dense
    delay x individual x individual matrix by three strategies
    (`fleshout_with_delay_slow_`, `fleshout_with_delay_`,
    `fleshout_with_delay_f`), and the connection matrix of one frame
    (`give_connection_matrix`).

    Each strategy takes an optional accumulator: `null` stands for
    `inplace=None`, in which case a zero-filled buffer is allocated; otherwise
    the caller's buffer is accumulated into. */
module Fleshout {
  import opened Tensors
  import opened Scatter

  /** What the per-frame routines read at `frame`: indices and data agree on
      the number of individuals, every neighbour identity is an individual, and
      for every delay the sweep has one row per individual and slot, with as
      many coordinates as the data. */
  predicate FrameShape(data: Frames, idx: Neighbours, sweep: Swept, frame: nat)
  {
    && frame < |data| && frame < |idx|
    && |idx[frame]| == |data[frame]|
    && (forall i, s :: 0 <= i < |idx[frame]| && 0 <= s < |idx[frame][i]| ==> 0 <= idx[frame][i][s] < |data[frame]|)
    && (forall t :: 0 <= t < |sweep| ==> frame < |sweep[t]| && |sweep[t][frame]| == |data[frame]|)
    && (forall t, i :: 0 <= t < |sweep| && 0 <= i < |data[frame]| ==> |sweep[t][frame][i]| == |idx[frame][i]|)
    && (forall t, i, s :: 0 <= t < |sweep| && 0 <= i < |data[frame]| && 0 <= s < |idx[frame][i]| ==>
          |sweep[t][frame][i][s]| == |data[frame][i]|)
  }

  /** The einsum 'ijk,k->ij' of `fleshout_with_delay_`: individual i's swept
      rows (delay x slot x coordinate) contracted with its own orientation. */
  function SlotProjection(data: Frames, idx: Neighbours, sweep: Swept, frame: nat, i: nat): (a: seq<seq<real>>)
    requires FrameShape(data, idx, sweep, frame) && i < |data[frame]|
    ensures |a| == |sweep| && forall t :: 0 <= t < |sweep| ==> |a[t]| == |idx[frame][i]|
    ensures forall t, s :: 0 <= t < |sweep| && 0 <= s < |idx[frame][i]| ==>
      |a[t]| == |idx[frame][i]| && a[t][s] == Dot(sweep[t][frame][i][s], data[frame][i])
  {
    seq(|sweep|, t requires 0 <= t < |sweep| =>
      seq(|idx[frame][i]|, s requires 0 <= s < |idx[frame][i]| => Dot(sweep[t][frame][i][s], data[frame][i])))
  }

  /** The einsum 'tink,ik->int' of `fleshout_with_delay_f`: the same
      contraction for all individuals at once, laid out individual x slot x delay. */
  function FrameProjection(data: Frames, idx: Neighbours, sweep: Swept, frame: nat): (a: seq<seq<seq<real>>>)
    requires FrameShape(data, idx, sweep, frame)
    ensures |a| == |data[frame]|
    ensures forall i :: 0 <= i < |a| ==> |a[i]| == |idx[frame][i]|
    ensures forall i, s :: 0 <= i < |a| && 0 <= s < |a[i]| ==> |a[i][s]| == |sweep|
    ensures forall i, s, t :: 0 <= i < |data[frame]| && 0 <= s < |idx[frame][i]| && 0 <= t < |sweep| ==>
      |a[i]| == |idx[frame][i]| && |a[i][s]| == |sweep| && a[i][s][t] == Dot(sweep[t][frame][i][s], data[frame][i])
  {
    seq(|data[frame]|, i requires 0 <= i < |data[frame]| =>
      seq(|idx[frame][i]|, s requires 0 <= s < |idx[frame][i]| =>
        seq(|sweep|, t requires 0 <= t < |sweep| => Dot(sweep[t][frame][i][s], data[frame][i]))))
  }

  /** Cell (t, i, j) that `fleshout_with_delay_slow_` adds: every slot of i
      naming j adds that slot's dot product. */
  function LoopCell(data: Frames, idx: Neighbours, sweep: Swept, frame: nat, t: nat, i: nat, j: nat): (r: real)
    requires FrameShape(data, idx, sweep, frame) && t < |sweep| && i < |data[frame]|
  {
    LoopAdd(idx[frame][i], SlotProjection(data, idx, sweep, frame, i)[t], j, |idx[frame][i]|)
  }

  /** Cell (t, i, j) that `fleshout_with_delay_` adds through numpy's buffered `+=`. */
  function FleshoutCell(data: Frames, idx: Neighbours, sweep: Swept, frame: nat, t: nat, i: nat, j: nat): (r: real)
    requires FrameShape(data, idx, sweep, frame) && t < |sweep| && i < |data[frame]|
  {
    BufferedAdd(idx[frame][i], SlotProjection(data, idx, sweep, frame, i)[t], j, |idx[frame][i]|)
  }

  /** Cell (i, j, t) that `fleshout_with_delay_f` adds to its individual x
      individual x delay buffer. */
  function FBufferCell(data: Frames, idx: Neighbours, sweep: Swept, frame: nat, i: nat, j: nat, t: nat): (r: real)
    requires FrameShape(data, idx, sweep, frame) && t < |sweep| && i < |data[frame]|
  {
    var a := FrameProjection(data, idx, sweep, frame);
    BufferedAdd(idx[frame][i], Column(a[i], t), j, |idx[frame][i]|)
  }

  /** `fleshout_with_delay_(data, indices, sweep, frame)` started from zeros, as a value. */
  function FleshoutFrame(data: Frames, idx: Neighbours, sweep: Swept, frame: nat): (m: Mat3)
    requires FrameShape(data, idx, sweep, frame)
    ensures IsMat3(m, |sweep|, |data[frame]|)
    ensures forall t, i, j :: 0 <= t < |sweep| && 0 <= i < |data[frame]| && 0 <= j < |data[frame]| ==>
      m[t][i][j] == FleshoutCell(data, idx, sweep, frame, t, i, j)
  {
    var n := |data[frame]|;
    seq(|sweep|, t requires 0 <= t < |sweep| =>
      seq(n, i requires 0 <= i < n =>
        seq(n, j requires 0 <= j < n => FleshoutCell(data, idx, sweep, frame, t, i, j))))
  }

  /** With duplicate-free neighbour rows the explicit loop and the per-individual
      einsum add the same amount to every cell. */
  lemma SlowAgreesWithPerIndividual(data: Frames, idx: Neighbours, sweep: Swept, frame: nat, t: nat, i: nat, j: nat)
    requires FrameShape(data, idx, sweep, frame) && t < |sweep| && i < |data[frame]|
    requires Distinct(idx[frame][i])
    ensures LoopCell(data, idx, sweep, frame, t, i, j) == FleshoutCell(data, idx, sweep, frame, t, i, j)
  {
    DistinctRowsAgree(idx[frame][i], SlotProjection(data, idx, sweep, frame, i)[t], j, |idx[frame][i]|);
  }

  /** With a duplicate-free row, what lands in cell (t, i, idx[frame][i][s]) is
      the dot product of slot s's swept row at delay t with i's orientation. */
  lemma NeighbourCellIsSlotDot(data: Frames, idx: Neighbours, sweep: Swept, frame: nat, t: nat, i: nat, s: nat)
    requires FrameShape(data, idx, sweep, frame) && t < |sweep| && i < |data[frame]| && s < |idx[frame][i]|
    requires Distinct(idx[frame][i])
    ensures FleshoutCell(data, idx, sweep, frame, t, i, idx[frame][i][s]) == Dot(sweep[t][frame][i][s], data[frame][i])
    ensures LoopCell(data, idx, sweep, frame, t, i, idx[frame][i][s]) == Dot(sweep[t][frame][i][s], data[frame][i])
  {
    var row := idx[frame][i];
    var vals := SlotProjection(data, idx, sweep, frame, i)[t];
    assert row[..|row|] == row;
    BufferedAddIsLastWrite(row, vals, row[s], |row|);
    DistinctRowsAgree(row, vals, row[s], |row|);
  }

  /** A cell (i, j) where j is not a neighbour of i in this frame receives
      nothing from any of the three strategies. */
  lemma NonNeighbourCellGetsNothing(data: Frames, idx: Neighbours, sweep: Swept, frame: nat, t: nat, i: nat, j: int)
    requires FrameShape(data, idx, sweep, frame) && t < |sweep| && i < |data[frame]|
    requires 0 <= j && j !in idx[frame][i]
    ensures LoopCell(data, idx, sweep, frame, t, i, j) == 0.0
    ensures FleshoutCell(data, idx, sweep, frame, t, i, j) == 0.0
    ensures FBufferCell(data, idx, sweep, frame, i, j, t) == 0.0
  {
    var row := idx[frame][i];
    assert row[..|row|] == row;
    AbsentTargetGetsNothing(row, SlotProjection(data, idx, sweep, frame, i)[t], j, |row|);
    AbsentTargetGetsNothing(row, Column(FrameProjection(data, idx, sweep, frame)[i], t), j, |row|);
  }

  /** The buffer of `fleshout_with_delay_f` holds at (i, j, t) what
      `fleshout_with_delay_` holds at (t, i, j); the transposition with axes
      (2, 1, 0) therefore yields at (t, j, i) the value at (t, i, j) of the
      other strategies. */
  lemma FBufferIsTransposed(data: Frames, idx: Neighbours, sweep: Swept, frame: nat, t: nat, i: nat, j: nat)
    requires FrameShape(data, idx, sweep, frame) && t < |sweep| && i < |data[frame]|
    ensures FBufferCell(data, idx, sweep, frame, i, j, t) == FleshoutCell(data, idx, sweep, frame, t, i, j)
  {
    var a := FrameProjection(data, idx, sweep, frame);
    assert Column(a[i], t) == SlotProjection(data, idx, sweep, frame, i)[t];
  }

  /** `fleshout_with_delay_slow_`'s loop: adds LoopCell to every cell of m. */
  method AccumulateSlow(data: Frames, idx: Neighbours, sweep: Swept, frame: nat, m: array3<real>)
    requires FrameShape(data, idx, sweep, frame)
    requires m.Length0 == |sweep| && m.Length1 == |data[frame]| && m.Length2 == |data[frame]|
    modifies m
    ensures forall t, i, j :: 0 <= t < m.Length0 && 0 <= i < m.Length1 && 0 <= j < m.Length2 ==>
      m[t, i, j] == old(m[t, i, j]) + LoopCell(data, idx, sweep, frame, t, i, j)
  {
    var n, delays := |data[frame]|, |sweep|;
    for i := 0 to n
      invariant forall t, a, b :: 0 <= t < delays && 0 <= a < n && 0 <= b < n ==>
        m[t, a, b] == old(m[t, a, b]) + (if a < i then LoopCell(data, idx, sweep, frame, t, a, b) else 0.0)
    {
      var row := idx[frame][i];
      ghost var vals := SlotProjection(data, idx, sweep, frame, i);
      for s := 0 to |row|
        invariant forall t, a, b :: 0 <= t < delays && 0 <= a < n && 0 <= b < n && a != i ==>
          m[t, a, b] == old(m[t, a, b]) + (if a < i then LoopCell(data, idx, sweep, frame, t, a, b) else 0.0)
        invariant forall t, b :: 0 <= t < delays && 0 <= b < n ==>
          m[t, i, b] == old(m[t, i, b]) + LoopAdd(row, vals[t], b, s)
      {
        var j := row[s];
        forall t | 0 <= t < delays {
          m[t, i, j] := m[t, i, j] + Dot(sweep[t][frame][i][s], data[frame][i]);
        }
      }
    }
  }

  /** `fleshout_with_delay_`'s loop: `inplace[:, i, indices[frame][i]] += a` for
      each individual i, with a the individual's slot projections. */
  method AccumulatePerIndividual(data: Frames, idx: Neighbours, sweep: Swept, frame: nat, m: array3<real>)
    requires FrameShape(data, idx, sweep, frame)
    requires m.Length0 == |sweep| && m.Length1 == |data[frame]| && m.Length2 == |data[frame]|
    modifies m
    ensures forall t, i, j :: 0 <= t < m.Length0 && 0 <= i < m.Length1 && 0 <= j < m.Length2 ==>
      m[t, i, j] == old(m[t, i, j]) + FleshoutCell(data, idx, sweep, frame, t, i, j)
  {
    var n, delays := |data[frame]|, |sweep|;
    for i := 0 to n
      invariant forall t, a, b :: 0 <= t < delays && 0 <= a < n && 0 <= b < n ==>
        m[t, a, b] == old(m[t, a, b]) + (if a < i then FleshoutCell(data, idx, sweep, frame, t, a, b) else 0.0)
    {
      ScatterAdd(m, i, idx[frame][i], SlotProjection(data, idx, sweep, frame, i));
    }
  }

  /** `fleshout_with_delay_f`'s loop over its individual x individual x delay
      buffer: `inplace[i, indices[frame][i]] += a[i]` for each individual i. */
  method AccumulateF(data: Frames, idx: Neighbours, sweep: Swept, frame: nat, buf: array3<real>)
    requires FrameShape(data, idx, sweep, frame)
    requires buf.Length0 == |data[frame]| && buf.Length1 == |data[frame]| && buf.Length2 == |sweep|
    modifies buf
    ensures forall i, j, t :: 0 <= i < buf.Length0 && 0 <= j < buf.Length1 && 0 <= t < buf.Length2 ==>
      buf[i, j, t] == old(buf[i, j, t]) + FBufferCell(data, idx, sweep, frame, i, j, t)
  {
    var n, delays := |data[frame]|, |sweep|;
    var a := FrameProjection(data, idx, sweep, frame);
    for i := 0 to n
      invariant forall c, b, t :: 0 <= c < n && 0 <= b < n && 0 <= t < delays ==>
        buf[c, b, t] == old(buf[c, b, t]) + (if c < i then FBufferCell(data, idx, sweep, frame, c, b, t) else 0.0)
    {
      ScatterAddRows(buf, i, idx[frame][i], a[i]);
    }
  }

  /** `fleshout_with_delay_slow_`. */
  method FleshoutWithDelaySlow(data: Frames, idx: Neighbours, sweep: Swept, frame: nat, inplace: array3?<real>)
    returns (m: array3<real>)
    requires FrameShape(data, idx, sweep, frame)
    requires inplace != null ==>
      inplace.Length0 == |sweep| && inplace.Length1 == |data[frame]| && inplace.Length2 == |data[frame]|
    modifies inplace
    ensures inplace != null ==> m == inplace
    ensures inplace == null ==> fresh(m)
    ensures m.Length0 == |sweep| && m.Length1 == |data[frame]| && m.Length2 == |data[frame]|
    ensures forall t, i, j :: 0 <= t < m.Length0 && 0 <= i < m.Length1 && 0 <= j < m.Length2 ==>
      m[t, i, j] == (if inplace == null then 0.0 else old(inplace[t, i, j])) + LoopCell(data, idx, sweep, frame, t, i, j)
  {
    var n := |data[frame]|;
    if inplace == null {
      m := new real[|sweep|, n, n]((t, i, j) => 0.0);
    } else {
      m := inplace;
    }
    AccumulateSlow(data, idx, sweep, frame, m);
  }

  /** `fleshout_with_delay_`. */
  method FleshoutWithDelayPerIndividual(data: Frames, idx: Neighbours, sweep: Swept, frame: nat, inplace: array3?<real>)
    returns (m: array3<real>)
    requires FrameShape(data, idx, sweep, frame)
    requires inplace != null ==>
      inplace.Length0 == |sweep| && inplace.Length1 == |data[frame]| && inplace.Length2 == |data[frame]|
    modifies inplace
    ensures inplace != null ==> m == inplace
    ensures inplace == null ==> fresh(m)
    ensures m.Length0 == |sweep| && m.Length1 == |data[frame]| && m.Length2 == |data[frame]|
    ensures forall t, i, j :: 0 <= t < m.Length0 && 0 <= i < m.Length1 && 0 <= j < m.Length2 ==>
      m[t, i, j] == (if inplace == null then 0.0 else old(inplace[t, i, j])) + FleshoutCell(data, idx, sweep, frame, t, i, j)
  {
    var n := |data[frame]|;
    if inplace == null {
      m := new real[|sweep|, n, n]((t, i, j) => 0.0);
    } else {
      m := inplace;
    }
    AccumulatePerIndividual(data, idx, sweep, frame, m);
  }

  /** `fleshout_with_delay_f`: accumulates into an individual x individual x
      delay buffer and returns its (2, 1, 0) transposition, which started from
      zeros is the per-delay transpose of what the other strategies return. */
  method FleshoutWithDelayF(data: Frames, idx: Neighbours, sweep: Swept, frame: nat, inplace: array3?<real>)
    returns (r: array3<real>)
    requires FrameShape(data, idx, sweep, frame)
    requires inplace != null ==>
      inplace.Length0 == |data[frame]| && inplace.Length1 == |data[frame]| && inplace.Length2 == |sweep|
    modifies inplace
    ensures fresh(r)
    ensures r.Length0 == |sweep| && r.Length1 == |data[frame]| && r.Length2 == |data[frame]|
    ensures inplace != null ==>
      forall i, j, t :: 0 <= i < inplace.Length0 && 0 <= j < inplace.Length1 && 0 <= t < inplace.Length2 ==>
        inplace[i, j, t] == old(inplace[i, j, t]) + FBufferCell(data, idx, sweep, frame, i, j, t)
    ensures forall t, j, i :: 0 <= t < r.Length0 && 0 <= j < r.Length1 && 0 <= i < r.Length2 ==>
      r[t, j, i] == (if inplace == null then 0.0 else old(inplace[i, j, t])) + FBufferCell(data, idx, sweep, frame, i, j, t)
    ensures inplace == null ==>
      forall t, i, j :: 0 <= t < r.Length0 && 0 <= i < r.Length1 && 0 <= j < r.Length2 ==>
        r[t, j, i] == FleshoutCell(data, idx, sweep, frame, t, i, j)
  {
    var n, delays := |data[frame]|, |sweep|;
    var buf: array3<real>;
    if inplace == null {
      buf := new real[n, n, delays]((i, j, t) => 0.0);
    } else {
      buf := inplace;
    }
    AccumulateF(data, idx, sweep, frame, buf);
    r := new real[delays, n, n];
    forall t, j, i | 0 <= t < delays && 0 <= j < n && 0 <= i < n {
      r[t, j, i] := buf[i, j, t];
    }
    forall t, i, j | 0 <= t < delays && 0 <= i < n && 0 <= j < n
      ensures FBufferCell(data, idx, sweep, frame, i, j, t) == FleshoutCell(data, idx, sweep, frame, t, i, j)
    {
      FBufferIsTransposed(data, idx, sweep, frame, t, i, j);
    }
  }

  /** Every neighbour identity in one frame's rows is an individual. */
  predicate RowsShape(rows: seq<seq<int>>)
  {
    forall i, s :: 0 <= i < |rows| && 0 <= s < |rows[i]| ==> 0 <= rows[i][s] < |rows|
  }

  /** Cell (i, j) that `give_connection_matrix` adds through numpy's buffered `+= 1.0`. */
  function ConnectionCell(rows: seq<seq<int>>, i: nat, j: nat): (r: real)
    requires i < |rows|
  {
    BufferedAdd(rows[i], Ones(|rows[i]|), j, |rows[i]|)
  }

  /** `give_connection_matrix(rows)` started from zeros, as a value. */
  function ConnectionMatrix(rows: seq<seq<int>>): (c: Mat)
    ensures IsMat(c, |rows|)
    ensures forall i, j :: 0 <= i < |rows| && 0 <= j < |rows| ==> c[i][j] == ConnectionCell(rows, i, j)
  {
    seq(|rows|, i requires 0 <= i < |rows| => seq(|rows|, j requires 0 <= j < |rows| => ConnectionCell(rows, i, j)))
  }

  /** One frame adds exactly 1.0 to (i, j) when j is among i's neighbours and
      nothing otherwise, so a frame's connection matrix is binary even when a
      row repeats a neighbour; a loop of `+= 1.0` would instead count the repeats. */
  lemma ConnectionCellMarksNeighbours(rows: seq<seq<int>>, i: nat, j: nat)
    requires i < |rows|
    ensures ConnectionCell(rows, i, j) == if j in rows[i] then 1.0 else 0.0
    ensures LoopAdd(rows[i], Ones(|rows[i]|), j, |rows[i]|) == multiset(rows[i])[j] as real
  {
    assert rows[i][..|rows[i]|] == rows[i];
    BufferedOnesMarkTargets(rows[i], j, |rows[i]|);
    LoopOnesCountTargets(rows[i], j, |rows[i]|);
  }

  /** `give_connection_matrix`'s loop: `connection_matrix[i, row] += 1.0` for each individual. */
  method MarkConnections(rows: seq<seq<int>>, cm: array2<real>)
    requires RowsShape(rows)
    requires cm.Length0 == |rows| && cm.Length1 == |rows|
    modifies cm
    ensures forall i, j :: 0 <= i < cm.Length0 && 0 <= j < cm.Length1 ==>
      cm[i, j] == old(cm[i, j]) + ConnectionCell(rows, i, j)
  {
    var n := |rows|;
    for i := 0 to n
      invariant forall a, b :: 0 <= a < n && 0 <= b < n ==>
        cm[a, b] == old(cm[a, b]) + (if a < i then ConnectionCell(rows, a, b) else 0.0)
    {
      var row := rows[i];
      var updated := new real[|row|];
      forall s | 0 <= s < |row| {
        updated[s] := cm[i, row[s]] + 1.0;
      }
      for s := 0 to |row|
        modifies cm
        invariant forall a, b :: 0 <= a < n && 0 <= b < n && a != i ==>
          cm[a, b] == old(cm[a, b]) + (if a < i then ConnectionCell(rows, a, b) else 0.0)
        invariant forall b :: 0 <= b < n ==>
          cm[i, b] == old(cm[i, b]) + BufferedAdd(row, Ones(|row|), b, s)
      {
        cm[i, row[s]] := updated[s];
      }
    }
  }

  /** `give_connection_matrix`: returns the caller's accumulator when one is given. */
  method GiveConnectionMatrix(indicesInFrame: seq<seq<int>>, inplace: array2?<real>) returns (cm: array2<real>)
    requires RowsShape(indicesInFrame)
    requires inplace != null ==> inplace.Length0 == |indicesInFrame| && inplace.Length1 == |indicesInFrame|
    modifies inplace
    ensures inplace != null ==> cm == inplace
    ensures inplace == null ==> fresh(cm)
    ensures cm.Length0 == |indicesInFrame| && cm.Length1 == |indicesInFrame|
    ensures forall i, j :: 0 <= i < cm.Length0 && 0 <= j < cm.Length1 ==>
      cm[i, j] == (if inplace == null then 0.0 else old(inplace[i, j])) + ConnectionCell(indicesInFrame, i, j)
  {
    var n := |indicesInFrame|;
    if inplace == null {
      cm := new real[n, n]((i, j) => 0.0);
    } else {
      cm := inplace;
    }
    MarkConnections(indicesInFrame, cm);
  }
}
