/** The two meanings that "add vals[s] to cell row[s], for every slot s" has in
    the leadership routines.

    An explicit Python loop of `+=` (leadership.py:64-68) adds once per slot, so
    a target that appears in two slots receives both values. numpy's
    fancy-indexed `x[row] += vals` (leadership.py:79, :94, :106) reads every
    target first, adds, and then writes the results back slot by slot, so for a
    repeated target only one of the writes survives; the model takes the last
    one. */
module Scatter {

  /** What the first n slots of an explicit `+=` loop add to cell j. */
  function LoopAdd(row: seq<int>, vals: seq<real>, j: int, n: nat): (r: real)
    requires n <= |row| && |vals| == |row|
  {
    if n == 0 then 0.0
    else LoopAdd(row, vals, j, n - 1) + (if row[n - 1] == j then vals[n - 1] else 0.0)
  }

  /** What the first n slots of a buffered (fancy-indexed) `+=` add to cell j:
      the value of the last of those slots that targets j, or nothing. */
  function BufferedAdd(row: seq<int>, vals: seq<real>, j: int, n: nat): (r: real)
    requires n <= |row| && |vals| == |row|
  {
    if n == 0 then 0.0
    else if row[n - 1] == j then vals[n - 1]
    else BufferedAdd(row, vals, j, n - 1)
  }

  /** No neighbour identity appears twice in the row. */
  predicate Distinct(row: seq<int>)
  {
    forall s, s' :: 0 <= s < s' < |row| ==> row[s] != row[s']
  }

  /** The row of ones that `+= 1.0` broadcasts over the slots. */
  function Ones(k: nat): (r: seq<real>)
    ensures |r| == k && forall s :: 0 <= s < k ==> r[s] == 1.0
  {
    seq(k, s => 1.0)
  }

  /** A cell that none of the first n slots targets receives nothing, under either meaning. */
  lemma {:induction false} AbsentTargetGetsNothing(row: seq<int>, vals: seq<real>, j: int, n: nat)
    requires n <= |row| && |vals| == |row|
    requires j !in row[..n]
    ensures LoopAdd(row, vals, j, n) == 0.0
    ensures BufferedAdd(row, vals, j, n) == 0.0
  {
    if n > 0 {
      assert row[n - 1] == row[..n][n - 1];
      assert row[..n - 1] == row[..n][..n - 1];
      AbsentTargetGetsNothing(row, vals, j, n - 1);
    }
  }

  /** On a row without repeated targets the loop and the buffered update add the same amount. */
  lemma {:induction false} DistinctRowsAgree(row: seq<int>, vals: seq<real>, j: int, n: nat)
    requires n <= |row| && |vals| == |row|
    requires Distinct(row)
    ensures LoopAdd(row, vals, j, n) == BufferedAdd(row, vals, j, n)
  {
    if n > 0 {
      if row[n - 1] == j {
        forall s | 0 <= s < n - 1 ensures row[s] != j {
          assert row[s] != row[n - 1];
        }
        assert j !in row[..n - 1];
        AbsentTargetGetsNothing(row, vals, j, n - 1);
      } else {
        DistinctRowsAgree(row, vals, j, n - 1);
      }
    }
  }

  /** The buffered update writes the value of the last slot that targets j. */
  lemma {:induction false} BufferedAddIsLastWrite(row: seq<int>, vals: seq<real>, j: int, n: nat)
    requires n <= |row| && |vals| == |row|
    requires j in row[..n]
    ensures exists s :: 0 <= s < n && row[s] == j && BufferedAdd(row, vals, j, n) == vals[s]
                        && forall s' :: s < s' < n ==> row[s'] != j
  {
    if row[n - 1] != j {
      assert row[..n] == row[..n - 1] + [row[n - 1]];
      BufferedAddIsLastWrite(row, vals, j, n - 1);
    }
  }

  /** Adding ones through a buffered update marks each target once, however
      often it is repeated: the result is 1 exactly for the targets in the row. */
  lemma {:induction false} BufferedOnesMarkTargets(row: seq<int>, j: int, n: nat)
    requires n <= |row|
    ensures BufferedAdd(row, Ones(|row|), j, n) == if j in row[..n] then 1.0 else 0.0
  {
    if n > 0 {
      assert row[..n] == row[..n - 1] + [row[n - 1]];
      BufferedOnesMarkTargets(row, j, n - 1);
    }
  }

  /** Adding ones through a loop counts how often the target is repeated. */
  lemma {:induction false} LoopOnesCountTargets(row: seq<int>, j: int, n: nat)
    requires n <= |row|
    ensures LoopAdd(row, Ones(|row|), j, n) == multiset(row[..n])[j] as real
  {
    if n > 0 {
      assert row[..n] == row[..n - 1] + [row[n - 1]];
      LoopOnesCountTargets(row, j, n - 1);
    }
  }

  /** A repeated target is where the two meanings part: with both slots of
      [0, 0] adding 1.0, the loop adds 2.0 to cell 0 and the buffered update 1.0. */
  lemma RepeatedTargetCountsOnce()
    ensures LoopAdd([0, 0], [1.0, 1.0], 0, 2) == 2.0
    ensures BufferedAdd([0, 0], [1.0, 1.0], 0, 2) == 1.0
  {
    assert LoopAdd([0, 0], [1.0, 1.0], 0, 1) == 1.0;
  }
  /** The values at delay t, one per slot, of a slot x delay row (0 for a
      slot that is too short, which the callers never pass). */
  function Column(a: seq<seq<real>>, t: nat): (c: seq<real>)
    ensures |c| == |a|
  {
    seq(|a|, s requires 0 <= s < |a| => if t < |a[s]| then a[s][t] else 0.0)
  }

  /** numpy's buffered `m[:, i, row] += vals` on a delay x individual x
      individual array, with one value per delay and slot: every targeted cell
      is read first and written back slot by slot. Only individual i's cells change. */
  method ScatterAdd(m: array3<real>, i: nat, row: seq<int>, vals: seq<seq<real>>)
    requires i < m.Length1 && |vals| == m.Length0
    requires forall t :: 0 <= t < |vals| ==> |vals[t]| == |row|
    requires forall s :: 0 <= s < |row| ==> 0 <= row[s] < m.Length2
    modifies m
    ensures forall t, c, b :: 0 <= t < m.Length0 && 0 <= c < m.Length1 && 0 <= b < m.Length2 ==>
      m[t, c, b] == old(m[t, c, b]) + (if c == i then BufferedAdd(row, vals[t], b, |row|) else 0.0)
  {
    var updated := new real[m.Length0, |row|];
    forall t, s | 0 <= t < m.Length0 && 0 <= s < |row| {
      updated[t, s] := m[t, i, row[s]] + vals[t][s];
    }
    for s := 0 to |row|
      modifies m
      invariant forall t, s' :: 0 <= t < m.Length0 && 0 <= s' < |row| ==> updated[t, s'] == old(m[t, i, row[s']]) + vals[t][s']
      invariant forall t, c, b :: 0 <= t < m.Length0 && 0 <= c < m.Length1 && 0 <= b < m.Length2 && c != i ==>
        m[t, c, b] == old(m[t, c, b])
      invariant forall t, b :: 0 <= t < m.Length0 && 0 <= b < m.Length2 ==>
        m[t, i, b] == old(m[t, i, b]) + BufferedAdd(row, vals[t], b, s)
    {
      forall t | 0 <= t < m.Length0 {
        m[t, i, row[s]] := updated[t, s];
      }
    }
  }

  /** numpy's buffered `buf[i, row] += vals` on an individual x individual x
      delay array, with one row of delays per slot. Only individual i's cells change. */
  method ScatterAddRows(buf: array3<real>, i: nat, row: seq<int>, vals: seq<seq<real>>)
    requires i < buf.Length0 && |vals| == |row|
    requires forall s :: 0 <= s < |row| ==> 0 <= row[s] < buf.Length1 && |vals[s]| == buf.Length2
    modifies buf
    ensures forall c, b, t :: 0 <= c < buf.Length0 && 0 <= b < buf.Length1 && 0 <= t < buf.Length2 ==>
      buf[c, b, t] == old(buf[c, b, t]) + (if c == i then BufferedAdd(row, Column(vals, t), b, |row|) else 0.0)
  {
    var updated := new real[|row|, buf.Length2];
    forall s, t | 0 <= s < |row| && 0 <= t < buf.Length2 {
      updated[s, t] := buf[i, row[s], t] + vals[s][t];
    }
    for s := 0 to |row|
      modifies buf
      invariant forall s', t :: 0 <= s' < |row| && 0 <= t < buf.Length2 ==> updated[s', t] == old(buf[i, row[s'], t]) + vals[s'][t]
      invariant forall c, b, t :: 0 <= c < buf.Length0 && 0 <= b < buf.Length1 && 0 <= t < buf.Length2 && c != i ==>
        buf[c, b, t] == old(buf[c, b, t])
      invariant forall b, t :: 0 <= b < buf.Length1 && 0 <= t < buf.Length2 ==>
        buf[i, b, t] == old(buf[i, b, t]) + BufferedAdd(row, Column(vals, t), b, s)
    {
      assert forall t :: 0 <= t < buf.Length2 ==> Column(vals, t)[s] == vals[s][t];
      forall t | 0 <= t < buf.Length2 {
        buf[i, row[s], t] := updated[s, t];
      }
    }
  }
}
