/** Dense tensors as nested sequences of exact reals: the shapes the leadership
    routines pass around, the dot product over the coordinate axis, and the
    element-wise sums and means that the averaging routines take. */
module Tensors {

  /** One individual's coordinates (an orientation vector) in one frame. */
  type Vec = seq<real>
  /** time x individual x coordinate */
  type Frames = seq<seq<Vec>>
  /** time x individual x neighbour slot: the identities of the neighbours */
  type Neighbours = seq<seq<seq<int>>>
  /** time x individual x neighbour slot x coordinate */
  type Gathered = seq<seq<seq<Vec>>>
  /** delay x time x individual x neighbour slot x coordinate */
  type Swept = seq<Gathered>
  /** individual x individual */
  type Mat = seq<seq<real>>
  /** delay x individual x individual */
  type Mat3 = seq<Mat>

  /** Euclidean dot product over the coordinate axis. */
  function Dot(u: Vec, v: Vec): (r: real)
    requires |u| == |v|
  {
    if |u| == 0 then 0.0 else Dot(u[..|u| - 1], v[..|v| - 1]) + u[|u| - 1] * v[|v| - 1]
  }

  predicate IsMat(m: Mat, n: nat)
  {
    |m| == n && forall i :: 0 <= i < n ==> |m[i]| == n
  }

  predicate IsMat3(m: Mat3, d: nat, n: nat)
  {
    |m| == d && forall t :: 0 <= t < d ==> IsMat(m[t], n)
  }

  /** The frames lo, lo + 1, ..., hi - 1 (Python's `range(lo, hi)`). */
  function Range(lo: nat, hi: int): (r: seq<nat>)
    ensures |r| == if hi > lo then hi - lo else 0
    ensures forall k :: 0 <= k < |r| ==> r[k] == lo + k
  {
    seq(if hi > lo then hi - lo else 0, k requires 0 <= k => lo + k)
  }

  /** Cell (i, j) of Python's `sum(ms)` over a list of matrices: a left fold from 0. */
  function CellSum(ms: seq<Mat>, n: nat, i: nat, j: nat): (r: real)
    requires forall k :: 0 <= k < |ms| ==> IsMat(ms[k], n)
    requires i < n && j < n
  {
    if |ms| == 0 then 0.0
    else assert IsMat(ms[|ms| - 1], n); CellSum(ms[..|ms| - 1], n, i, j) + ms[|ms| - 1][i][j]
  }

  function Sum(ms: seq<Mat>, n: nat): (r: Mat)
    requires forall k :: 0 <= k < |ms| ==> IsMat(ms[k], n)
    ensures IsMat(r, n)
  {
    seq(n, i requires 0 <= i < n => seq(n, j requires 0 <= j < n => CellSum(ms, n, i, j)))
  }

  /** Cell (t, i, j) of Python's `sum(ms)` over a list of delay x individual x individual matrices. */
  function CellSum3(ms: seq<Mat3>, d: nat, n: nat, t: nat, i: nat, j: nat): (r: real)
    requires forall k :: 0 <= k < |ms| ==> IsMat3(ms[k], d, n)
    requires t < d && i < n && j < n
  {
    if |ms| == 0 then 0.0
    else assert IsMat3(ms[|ms| - 1], d, n); CellSum3(ms[..|ms| - 1], d, n, t, i, j) + ms[|ms| - 1][t][i][j]
  }

  function Sum3(ms: seq<Mat3>, d: nat, n: nat): (r: Mat3)
    requires forall k :: 0 <= k < |ms| ==> IsMat3(ms[k], d, n)
    ensures IsMat3(r, d, n)
  {
    seq(d, t requires 0 <= t < d =>
      seq(n, i requires 0 <= i < n => seq(n, j requires 0 <= j < n => CellSum3(ms, d, n, t, i, j))))
  }

  /** Element-wise division of a matrix by a positive count (`m / c` in numpy). */
  function Mean3(m: Mat3, d: nat, n: nat, c: nat): (r: Mat3)
    requires IsMat3(m, d, n) && c > 0
    ensures IsMat3(r, d, n)
  {
    seq(d, t requires 0 <= t < d =>
      seq(n, i requires 0 <= i < n => seq(n, j requires 0 <= j < n => m[t][i][j] / c as real)))
  }

  /** Summing a concatenation of two lists is adding their sums: accumulating
      over one list of frames and then another equals accumulating over both. */
  lemma {:induction false} CellSum3Concat(a: seq<Mat3>, b: seq<Mat3>, d: nat, n: nat, t: nat, i: nat, j: nat)
    requires forall k :: 0 <= k < |a| ==> IsMat3(a[k], d, n)
    requires forall k :: 0 <= k < |b| ==> IsMat3(b[k], d, n)
    requires t < d && i < n && j < n
    ensures forall k :: 0 <= k < |a + b| ==> IsMat3((a + b)[k], d, n)
    ensures CellSum3(a + b, d, n, t, i, j) == CellSum3(a, d, n, t, i, j) + CellSum3(b, d, n, t, i, j)
  {
    assert forall k :: 0 <= k < |a + b| ==> IsMat3((a + b)[k], d, n) by {
      forall k | 0 <= k < |a + b| ensures IsMat3((a + b)[k], d, n) {
        if k < |a| { assert (a + b)[k] == a[k]; } else { assert (a + b)[k] == b[k - |a|]; }
      }
    }
    if |b| == 0 {
      assert a + b == a;
    } else {
      var b' := b[..|b| - 1];
      assert (a + b)[..|a + b| - 1] == a + b';
      CellSum3Concat(a, b', d, n, t, i, j);
    }
  }

  /** A sum of matrices that all have non-negative cells has non-negative cells,
      and it is zero only where every summand is zero. */
  lemma {:induction false} CellSumZero(ms: seq<Mat>, n: nat, i: nat, j: nat)
    requires i < n && j < n
    requires forall k :: 0 <= k < |ms| ==> IsMat(ms[k], n) && ms[k][i][j] >= 0.0
    ensures CellSum(ms, n, i, j) >= 0.0
    ensures CellSum(ms, n, i, j) == 0.0 <==> forall k :: 0 <= k < |ms| ==> ms[k][i][j] == 0.0
  {
    if |ms| > 0 {
      CellSumZero(ms[..|ms| - 1], n, i, j);
    }
  }

  /** A sum of zeros is zero. */
  lemma {:induction false} CellSum3OfZeros(ms: seq<Mat3>, d: nat, n: nat, t: nat, i: nat, j: nat)
    requires t < d && i < n && j < n
    requires forall k :: 0 <= k < |ms| ==> IsMat3(ms[k], d, n) && ms[k][t][i][j] == 0.0
    ensures CellSum3(ms, d, n, t, i, j) == 0.0
  {
    if |ms| > 0 {
      CellSum3OfZeros(ms[..|ms| - 1], d, n, t, i, j);
    }
  }
}
