/** Dense real vectors and matrices, as far as the implicit gas step needs them:
    inner products, matrix-vector and matrix-matrix products, numpy's `diag`
    and the fact that a right inverse solves a linear system. */
module LinAlg {

  /** Inner product, accumulated from the front. */
  function Dot(u: seq<real>, v: seq<real>): real
    requires |u| == |v|
  {
    if |u| == 0 then 0.0 else u[0] * v[0] + Dot(u[1..], v[1..])
  }

  /** `x * w + p`, elementwise. */
  function Axpy(x: real, w: seq<real>, p: seq<real>): seq<real>
    requires |w| == |p|
  {
    seq(|w|, k requires 0 <= k < |w| => x * w[k] + p[k])
  }

  function Add(u: seq<real>, v: seq<real>): seq<real>
    requires |u| == |v|
  {
    seq(|u|, k requires 0 <= k < |u| => u[k] + v[k])
  }

  function Sub(u: seq<real>, v: seq<real>): seq<real>
    requires |u| == |v|
  {
    seq(|u|, k requires 0 <= k < |u| => u[k] - v[k])
  }

  /** Every row of `M` has `cols` entries. */
  ghost predicate Rows(M: seq<seq<real>>, cols: nat)
  {
    forall i :: 0 <= i < |M| ==> |M[i]| == cols
  }

  ghost predicate IsSquare(M: seq<seq<real>>)
  {
    Rows(M, |M|)
  }

  function MatVec(M: seq<seq<real>>, x: seq<real>): seq<real>
    requires Rows(M, |x|)
  {
    seq(|M|, i requires 0 <= i < |M| => Dot(M[i], x))
  }

  /** Column `k` of `W`. */
  function Col(W: seq<seq<real>>, k: nat): seq<real>
    requires forall j :: 0 <= j < |W| ==> k < |W[j]|
  {
    seq(|W|, j requires 0 <= j < |W| => W[j][k])
  }

  /** The row vector `u` times the `|u|` by `m` matrix `W`. */
  function VecMat(u: seq<real>, W: seq<seq<real>>, m: nat): seq<real>
    requires |u| == |W| && Rows(W, m)
  {
    seq(m, k requires 0 <= k < m => Dot(u, Col(W, k)))
  }

  function MatMul(M: seq<seq<real>>, P: seq<seq<real>>): seq<seq<real>>
    requires IsSquare(M) && IsSquare(P) && |M| == |P|
  {
    seq(|M|, i requires 0 <= i < |M| => VecMat(M[i], P, |P|))
  }

  function Identity(n: nat): seq<seq<real>>
  {
    seq(n, i => seq(n, j => if i == j then 1.0 else 0.0))
  }

  function MatAdd(P: seq<seq<real>>, Q: seq<seq<real>>): seq<seq<real>>
    requires |P| == |Q| && forall i :: 0 <= i < |P| ==> |P[i]| == |Q[i]|
  {
    seq(|P|, i requires 0 <= i < |P| => Add(P[i], Q[i]))
  }

  /** numpy's `diag(v, k)`: the square matrix of size `|v| + |k|` that holds `v`
      on its `k`-th diagonal (above the main one for `k > 0`, below it for
      `k < 0`) and zero everywhere else. */
  function Diag(v: seq<real>, k: int): (D: seq<seq<real>>)
    ensures |D| == |v| + (if k < 0 then -k else k) && IsSquare(D)
  {
    var n := |v| + (if k < 0 then -k else k);
    seq(n, i requires 0 <= i < n =>
      seq(n, j requires 0 <= j < n =>
        if j - i == k then v[if k >= 0 then i else j] else 0.0))
  }

  /** A vector whose first `k` entries are zero contributes nothing from them. */
  lemma {:induction false} DotZeroLeft(u: seq<real>, v: seq<real>)
    requires |u| == |v|
    requires forall k :: 0 <= k < |u| ==> u[k] == 0.0
    ensures Dot(u, v) == 0.0
  {
    if |u| > 0 {
      DotZeroLeft(u[1..], v[1..]);
    }
  }

  /** The inner product splits at any index. */
  lemma {:induction false} DotSplit(u: seq<real>, v: seq<real>, m: nat)
    requires |u| == |v| && m <= |u|
    ensures Dot(u, v) == Dot(u[..m], v[..m]) + Dot(u[m..], v[m..])
  {
    if m == 0 {
      assert u[0..] == u && v[0..] == v;
    } else {
      DotSplit(u[1..], v[1..], m - 1);
      assert u[..m][1..] == u[1..][..m - 1] && v[..m][1..] == v[1..][..m - 1];
      assert u[1..][m - 1..] == u[m..] && v[1..][m - 1..] == v[m..];
    }
  }

  /** Only the entries of `u` inside `[lo, hi)` matter when `u` is zero outside it. */
  lemma DotWindow(u: seq<real>, v: seq<real>, lo: nat, hi: nat)
    requires |u| == |v| && lo <= hi <= |u|
    requires forall k :: 0 <= k < |u| && (k < lo || hi <= k) ==> u[k] == 0.0
    ensures Dot(u, v) == Dot(u[lo..hi], v[lo..hi])
  {
    DotSplit(u, v, lo);
    DotZeroLeft(u[..lo], v[..lo]);
    DotSplit(u[lo..], v[lo..], hi - lo);
    DotZeroLeft(u[lo..][hi - lo..], v[lo..][hi - lo..]);
    assert u[lo..][..hi - lo] == u[lo..hi] && v[lo..][..hi - lo] == v[lo..hi];
  }

  /** Inner products of vectors of length two and three, entry by entry. */
  lemma Dot2(u: seq<real>, v: seq<real>, u0: real, u1: real, v0: real, v1: real)
    requires |u| == |v| == 2
    requires u[0] == u0 && u[1] == u1 && v[0] == v0 && v[1] == v1
    ensures Dot(u, v) == u0 * v0 + u1 * v1
  {
    assert Dot(u[1..][1..], v[1..][1..]) == 0.0;
  }

  lemma Dot3(u: seq<real>, v: seq<real>, u0: real, u1: real, u2: real, v0: real, v1: real, v2: real)
    requires |u| == |v| == 3
    requires u[0] == u0 && u[1] == u1 && u[2] == u2 && v[0] == v0 && v[1] == v1 && v[2] == v2
    ensures Dot(u, v) == u0 * v0 + u1 * v1 + u2 * v2
  {
    Dot2(u[1..], v[1..], u1, u2, v1, v2);
  }

  /** Inner products with a row that is zero outside three neighbouring
      entries starting at `lo`. */
  lemma DotWindow3(u: seq<real>, v: seq<real>, lo: nat)
    requires |u| == |v| && lo + 3 <= |u|
    requires forall k :: 0 <= k < |u| && (k < lo || lo + 3 <= k) ==> u[k] == 0.0
    ensures Dot(u, v) == u[lo] * v[lo] + u[lo + 1] * v[lo + 1] + u[lo + 2] * v[lo + 2]
  {
    var a, b := u[lo..lo + 3], v[lo..lo + 3];
    assert Dot(a, b) == u[lo] * v[lo] + u[lo + 1] * v[lo + 1] + u[lo + 2] * v[lo + 2] by {
      Dot3(a, b, u[lo], u[lo + 1], u[lo + 2], v[lo], v[lo + 1], v[lo + 2]);
    }
    DotWindow(u, v, lo, lo + 3);
  }

  /** The same at the start, at the end and around position `i`. */
  lemma DotHead3(u: seq<real>, v: seq<real>)
    requires |u| == |v| >= 3
    requires forall k :: 3 <= k < |u| ==> u[k] == 0.0
    ensures Dot(u, v) == u[0] * v[0] + u[1] * v[1] + u[2] * v[2]
  {
    DotWindow3(u, v, 0);
  }

  lemma DotTail3(u: seq<real>, v: seq<real>)
    requires |u| == |v| >= 3
    requires forall k :: 0 <= k < |u| - 3 ==> u[k] == 0.0
    ensures Dot(u, v) == u[|u| - 3] * v[|u| - 3] + u[|u| - 2] * v[|u| - 2] + u[|u| - 1] * v[|u| - 1]
  {
    DotWindow3(u, v, |u| - 3);
  }

  lemma DotMid3(u: seq<real>, v: seq<real>, i: nat)
    requires |u| == |v| && 1 <= i < |u| - 1
    requires forall k :: 0 <= k < |u| && (k < i - 1 || i + 1 < k) ==> u[k] == 0.0
    ensures Dot(u, v) == u[i - 1] * v[i - 1] + u[i] * v[i] + u[i + 1] * v[i + 1]
  {
    DotWindow3(u, v, i - 1);
    assert (i - 1) + 1 == i && (i - 1) + 2 == i + 1;
  }

  /** Peeling the first entry off `x * w + p`. */
  lemma AxpyCons(x: real, w: seq<real>, p: seq<real>)
    requires |w| == |p| > 0
    ensures Axpy(x, w, p)[0] == x * w[0] + p[0]
    ensures Axpy(x, w, p)[1..] == Axpy(x, w[1..], p[1..])
  {
    forall k | 0 <= k < |w| - 1
      ensures Axpy(x, w, p)[1..][k] == Axpy(x, w[1..], p[1..])[k]
    {
    }
  }

  /** The distributive step behind `DotAxpy`. */
  lemma AxpyStep(x: real, w0: real, p0: real, b0: real, dw: real, dp: real)
    ensures (x * w0 + p0) * b0 + (x * dw + dp) == x * (w0 * b0 + dw) + (p0 * b0 + dp)
  {
  }

  /** The inner product is linear in its first argument. */
  lemma {:induction false} DotAxpy(x: real, w: seq<real>, p: seq<real>, b: seq<real>)
    requires |w| == |p| == |b|
    ensures Dot(Axpy(x, w, p), b) == x * Dot(w, b) + Dot(p, b)
  {
    if |w| > 0 {
      var dw, dp := Dot(w[1..], b[1..]), Dot(p[1..], b[1..]);
      assert Dot(Axpy(x, w, p), b) == (x * w[0] + p[0]) * b[0] + (x * dw + dp) by {
        AxpyCons(x, w, p);
        DotAxpy(x, w[1..], p[1..], b[1..]);
      }
      assert Dot(w, b) == w[0] * b[0] + dw;
      assert Dot(p, b) == p[0] * b[0] + dp;
      AxpyStep(x, w[0], p[0], b[0], dw, dp);
    }
  }

  /** The first entry of `W b` is the first row of `W` times `b`; the rest is
      `W[1..] b`. */
  lemma MatVecCons(W: seq<seq<real>>, b: seq<real>)
    requires |W| > 0 && Rows(W, |b|)
    ensures MatVec(W, b)[0] == Dot(W[0], b) && MatVec(W, b)[1..] == MatVec(W[1..], b)
  {
  }

  /** `u W` is `u[0]` times the first row of `W` plus `u[1..] W[1..]`. */
  lemma VecMatCons(u: seq<real>, W: seq<seq<real>>, m: nat)
    requires |u| == |W| > 0 && Rows(W, m)
    ensures VecMat(u, W, m) == Axpy(u[0], W[0], VecMat(u[1..], W[1..], m))
  {
    var p := VecMat(u[1..], W[1..], m);
    forall k | 0 <= k < m
      ensures VecMat(u, W, m)[k] == Axpy(u[0], W[0], p)[k]
    {
      assert Col(W, k)[0] == W[0][k];
      assert Col(W, k)[1..] == Col(W[1..], k);
    }
  }

  /** Associativity of products: `u · (W b) == (u W) · b`. */
  lemma {:induction false} DotMatVec(u: seq<real>, W: seq<seq<real>>, b: seq<real>)
    requires |u| == |W| && Rows(W, |b|)
    ensures Dot(u, MatVec(W, b)) == Dot(VecMat(u, W, |b|), b)
  {
    if |u| == 0 {
      DotZeroLeft(VecMat(u, W, |b|), b);
    } else {
      DotMatVec(u[1..], W[1..], b);
      MatVecCons(W, b);
      VecMatCons(u, W, |b|);
      DotAxpy(u[0], W[0], VecMat(u[1..], W[1..], |b|), b);
    }
  }

  /** The `i`-th row of the identity picks out the `i`-th entry. */
  lemma DotUnit(u: seq<real>, b: seq<real>, i: nat)
    requires |u| == |b| && i < |u|
    requires forall k :: 0 <= k < |u| ==> u[k] == if k == i then 1.0 else 0.0
    ensures Dot(u, b) == b[i]
  {
    DotWindow(u, b, i, i + 1);
    assert Dot(u[i..i + 1][1..], b[i..i + 1][1..]) == 0.0;
  }

  /** Multiplying by a right inverse solves the system: if `M P == I` then
      `x := P b` satisfies `M x == b`. */
  lemma SolveByRightInverse(M: seq<seq<real>>, P: seq<seq<real>>, b: seq<real>)
    requires IsSquare(M) && IsSquare(P) && |M| == |P| == |b|
    requires MatMul(M, P) == Identity(|M|)
    ensures MatVec(M, MatVec(P, b)) == b
  {
    var n := |M|;
    forall i | 0 <= i < n
      ensures MatVec(M, MatVec(P, b))[i] == b[i]
    {
      DotMatVec(M[i], P, b);
      assert VecMat(M[i], P, n) == MatMul(M, P)[i] == Identity(n)[i];
      DotUnit(Identity(n)[i], b, i);
    }
  }
}
