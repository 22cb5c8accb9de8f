/** The implicit update of the gas surface density Sigma in dustpy
    (dustpy/std/gas.py): the tri-diagonal Jacobian, the boundary rows that
    overwrite its first and last row and the right-hand side `_rhs`, the
    external sources added to the interior of `_rhs`, the implicit Euler step
    `(I - dt J) Y1 = rhs`, and the floor value applied to Sigma afterwards.

    The float64 arithmetic of the source is modelled as exact `real`
    arithmetic. */
module Gas {
  import opened LinAlg

  datatype Option<T> = None | Some(cond: T)

  /** A boundary condition, as selected by the `condition` string of
      `sim.gas.boundary.inner` / `sim.gas.boundary.outer`; a boundary that is
      `None` in the source is `None` here. */
  datatype Condition =
    | Val(value: real)    // "val": the boundary cell holds `value`
    | ConstVal            // "const_val": the boundary cell equals its neighbour
    | Grad(value: real)   // "grad": prescribed gradient of r * Sigma
    | ConstGrad           // "const_grad": gradient continued from the two neighbours

  /** The radial grid: `N` cell centres `r` and `N + 1` cell interfaces `ri`. */
  datatype Grid = Grid(r: seq<real>, ri: seq<real>)
  {
    predicate Valid()
    {
      |r| >= 3 && |ri| == |r| + 1
    }

    function N(): nat
    {
      |r|
    }
  }

  /** The three coefficient vectors returned by the Jacobian kernel
      `gas_f.jac_abc`: `lower[i]` belongs at `(i, i - 1)`, `diag[i]` at `(i, i)`
      and `upper[i]` at `(i, i + 1)`. */
  datatype Bands = Bands(lower: seq<real>, diag: seq<real>, upper: seq<real>)
  {
    predicate Fits(n: nat)
    {
      |lower| == n && |diag| == n && |upper| == n
    }
  }

  // ---------------------------------------------------------------------
  // Boundary coefficients
  // ---------------------------------------------------------------------

  /** Inner "grad": coefficient of Sigma[1] in the boundary relation. */
  function InnerGradK1(g: Grid): real
    requires g.Valid() && g.r[0] != 0.0
  {
    - g.r[1] / g.r[0]
  }

  /** Inner "const_grad": ratio of the first interface step of r * Sigma to the second. */
  function InnerDi(g: Grid): real
    requires g.Valid() && g.ri[2] != 0.0 && g.r[2] != g.r[0]
  {
    g.ri[1] / g.ri[2] * (g.r[1] - g.r[0]) / (g.r[2] - g.r[0])
  }

  function InnerK1(g: Grid): real
    requires g.Valid() && g.r[0] != 0.0 && g.ri[2] != 0.0 && g.r[2] != g.r[0]
  {
    - g.r[1] / g.r[0] * (1.0 + InnerDi(g))
  }

  function InnerK2(g: Grid): real
    requires g.Valid() && g.r[0] != 0.0 && g.ri[2] != 0.0 && g.r[2] != g.r[0]
  {
    g.r[2] / g.r[0] * InnerDi(g)
  }

  /** Outer "grad": coefficient of Sigma[N-2] in the boundary relation. */
  function OuterGradKNrm2(g: Grid): real
    requires g.Valid() && g.r[g.N() - 1] != 0.0
  {
    var n := g.N();
    - g.r[n - 2] / g.r[n - 1]
  }

  /** Outer "const_grad": ratio of the last interface step of r * Sigma to the one before. */
  function OuterDo(g: Grid): real
    requires g.Valid() && g.ri[g.N() - 2] != 0.0 && g.r[g.N() - 2] != g.r[g.N() - 3]
  {
    var n := g.N();
    g.ri[n - 1] / g.ri[n - 2] * (g.r[n - 1] - g.r[n - 2]) / (g.r[n - 2] - g.r[n - 3])
  }

  function OuterKNrm2(g: Grid): real
    requires g.Valid() && g.r[g.N() - 1] != 0.0
    requires g.ri[g.N() - 2] != 0.0 && g.r[g.N() - 2] != g.r[g.N() - 3]
  {
    var n := g.N();
    - g.r[n - 2] / g.r[n - 1] * (1.0 + OuterDo(g))
  }

  function OuterKNrm3(g: Grid): real
    requires g.Valid() && g.r[g.N() - 1] != 0.0
    requires g.ri[g.N() - 2] != 0.0 && g.r[g.N() - 2] != g.r[g.N() - 3]
  {
    var n := g.N();
    g.r[n - 3] / g.r[n - 1] * OuterDo(g)
  }

  /** The divisions an inner condition performs are by non-zero numbers. */
  predicate InnerDefined(c: Option<Condition>, g: Grid, dt: real)
    requires g.Valid()
  {
    match c
    case None => true
    case Some(Val(_)) => true
    case Some(ConstVal) => dt != 0.0
    case Some(Grad(_)) => dt != 0.0 && g.r[0] != 0.0
    case Some(ConstGrad) => dt != 0.0 && g.r[0] != 0.0 && g.ri[2] != 0.0 && g.r[2] != g.r[0]
  }

  /** The divisions an outer condition performs are by non-zero numbers. */
  predicate OuterDefined(c: Option<Condition>, g: Grid, dt: real)
    requires g.Valid()
  {
    var n := g.N();
    match c
    case None => true
    case Some(Val(_)) => true
    case Some(ConstVal) => dt != 0.0
    case Some(Grad(_)) => dt != 0.0 && g.r[n - 1] != 0.0
    case Some(ConstGrad) =>
      dt != 0.0 && g.r[n - 1] != 0.0 && g.ri[n - 2] != 0.0 && g.r[n - 2] != g.r[n - 3]
  }

  /** The right-hand-side entries divide only by the boundary radius, and only for "grad". */
  predicate InnerRhsDefined(c: Option<Condition>, g: Grid)
    requires g.Valid()
  {
    c.Some? && c.cond.Grad? ==> g.r[0] != 0.0
  }

  predicate OuterRhsDefined(c: Option<Condition>, g: Grid)
    requires g.Valid()
  {
    c.Some? && c.cond.Grad? ==> g.r[g.N() - 1] != 0.0
  }

  /** Everything `jacobian` needs: a grid of at least three cells, bands of its
      size, and non-zero divisors for the selected conditions. */
  predicate Setup(b: Bands, g: Grid, dt: real, inner: Option<Condition>, outer: Option<Condition>)
  {
    g.Valid() && b.Fits(g.N()) && InnerDefined(inner, g, dt) && OuterDefined(outer, g, dt)
  }

  // ---------------------------------------------------------------------
  // Specification of `jacobian`
  // ---------------------------------------------------------------------

  /** `diag(A[1:], -1) + diag(B) + diag(C[:-1], 1)`. */
  function Assembled(b: Bands): (J: seq<seq<real>>)
    requires |b.diag| >= 1 && b.Fits(|b.diag|)
    ensures |J| == |b.diag| && IsSquare(J)
  {
    var n := |b.diag|;
    MatAdd(MatAdd(Diag(b.lower[1..], -1), Diag(b.diag, 0)), Diag(b.upper[..n - 1], 1))
  }

  /** Row 0 after the inner boundary override. */
  function InnerRow(c: Option<Condition>, row: seq<real>, g: Grid, dt: real): seq<real>
    requires g.Valid() && |row| == g.N() && InnerDefined(c, g, dt)
  {
    match c
    case None => row
    case Some(Val(_)) => row[0 := 0.0]
    case Some(ConstVal) => row[0 := 0.0][1 := 1.0 / dt]
    case Some(Grad(_)) => row[0 := 0.0][1 := - InnerGradK1(g) / dt]
    case Some(ConstGrad) => row[0 := 0.0][1 := - InnerK1(g) / dt][2 := - InnerK2(g) / dt]
  }

  /** Row N-1 after the outer boundary override. */
  function OuterRow(c: Option<Condition>, row: seq<real>, g: Grid, dt: real): seq<real>
    requires g.Valid() && |row| == g.N() && OuterDefined(c, g, dt)
  {
    var n := g.N();
    match c
    case None => row
    case Some(Val(_)) => row[n - 1 := 0.0]
    case Some(ConstVal) => row[n - 1 := 0.0][n - 2 := 1.0 / dt]
    case Some(Grad(_)) => row[n - 1 := 0.0][n - 2 := - OuterGradKNrm2(g) / dt]
    case Some(ConstGrad) =>
      row[n - 1 := 0.0][n - 2 := - OuterKNrm2(g) / dt][n - 3 := - OuterKNrm3(g) / dt]
  }

  /** `_rhs[0]` after the inner boundary override; `sigma0` is what it held before. */
  function InnerRhs(c: Option<Condition>, sigma0: real, g: Grid): real
    requires g.Valid() && InnerRhsDefined(c, g)
  {
    match c
    case None => sigma0
    case Some(Val(v)) => v
    case Some(ConstVal) => 0.0
    case Some(Grad(v)) => - g.ri[1] / g.r[0] * (g.r[1] - g.r[0]) * v
    case Some(ConstGrad) => 0.0
  }

  /** `_rhs[N-1]` after the outer boundary override. */
  function OuterRhs(c: Option<Condition>, sigmaLast: real, g: Grid): real
    requires g.Valid() && OuterRhsDefined(c, g)
  {
    var n := g.N();
    match c
    case None => sigmaLast
    case Some(Val(v)) => v
    case Some(ConstVal) => 0.0
    case Some(Grad(v)) => g.ri[n - 1] / g.r[n - 1] * (g.r[n - 1] - g.r[n - 2]) * v
    case Some(ConstGrad) => 0.0
  }

  /** The matrix `jacobian` returns. */
  function JacobianMatrix(b: Bands, g: Grid, dt: real, inner: Option<Condition>, outer: Option<Condition>)
    : (J: seq<seq<real>>)
    requires Setup(b, g, dt, inner, outer)
    ensures |J| == g.N() && IsSquare(J)
  {
    var T := Assembled(b);
    var n := g.N();
    T[0 := InnerRow(inner, T[0], g, dt)][n - 1 := OuterRow(outer, T[n - 1], g, dt)]
  }

  /** The contents of `_rhs` after `jacobian`. */
  function RhsVector(sigma: seq<real>, g: Grid, inner: Option<Condition>, outer: Option<Condition>)
    : (R: seq<real>)
    requires g.Valid() && |sigma| == g.N() && InnerRhsDefined(inner, g) && OuterRhsDefined(outer, g)
    ensures |R| == |sigma|
  {
    var n := g.N();
    sigma[0 := InnerRhs(inner, sigma[0], g)][n - 1 := OuterRhs(outer, sigma[n - 1], g)]
  }

  // ---------------------------------------------------------------------
  // Specification of `_f_impl_1_euler_direct`
  // ---------------------------------------------------------------------

  /** `eye(N) - dx * jac`. */
  function ImplicitMatrix(J: seq<seq<real>>, dx: real): (M: seq<seq<real>>)
    requires IsSquare(J)
    ensures |M| == |J| && IsSquare(M)
  {
    var n := |J|;
    seq(n, i requires 0 <= i < n =>
      seq(n, j requires 0 <= j < n => (if i == j then 1.0 else 0.0) - dx * J[i][j]))
  }

  /** `rhs` after `rhs[1:-1] += dx * S_ext[1:-1]`. */
  function WithSource(rhs: seq<real>, dx: real, sExt: seq<real>): (R: seq<real>)
    requires |sExt| == |rhs|
    ensures |R| == |rhs|
  {
    seq(|rhs|, i requires 0 <= i < |rhs| =>
      if 1 <= i < |rhs| - 1 then rhs[i] + dx * sExt[i] else rhs[i])
  }

  // ---------------------------------------------------------------------
  // Specification of `enforce_floor_value`
  // ---------------------------------------------------------------------

  function Max(a: real, b: real): real
  {
    if a >= b then a else b
  }

  /** `np.maximum(Sigma, SigmaFloor)`, with one floor value per cell (a
      single floor value is the constant sequence). */
  function Floored(sigma: seq<real>, floor: seq<real>): (s: seq<real>)
    requires |floor| == |sigma|
    ensures |s| == |sigma|
  {
    seq(|sigma|, i requires 0 <= i < |sigma| => Max(sigma[i], floor[i]))
  }

  // ---------------------------------------------------------------------
  // The in-place operations
  // ---------------------------------------------------------------------

  /** Row `i` of a two-dimensional array. */
  function Row(m: array2<real>, i: nat): (row: seq<real>)
    reads m
    requires i < m.Length0
    ensures |row| == m.Length1
  {
    seq(m.Length1, j requires 0 <= j < m.Length1 reads m => m[i, j])
  }

  /** The contents of a two-dimensional array, row by row. */
  function ToMatrix(m: array2<real>): (M: seq<seq<real>>)
    reads m
    ensures |M| == m.Length0 && Rows(M, m.Length1)
  {
    seq(m.Length0, i requires 0 <= i < m.Length0 reads m => Row(m, i))
  }

  lemma EntriesToMatrix(m: array2<real>, M: seq<seq<real>>)
    requires |M| == m.Length0 && Rows(M, m.Length1)
    requires forall i, j :: 0 <= i < m.Length0 && 0 <= j < m.Length1 ==> m[i, j] == M[i][j]
    ensures ToMatrix(m) == M
  {
    forall i | 0 <= i < m.Length0
      ensures ToMatrix(m)[i] == M[i]
    {
      assert Row(m, i) == M[i];
    }
  }

  /** An array that differs from `before` only in row `i`, which now holds `row`. */
  lemma RowReplaced(m: array2<real>, before: seq<seq<real>>, i: nat, row: seq<real>)
    requires |before| == m.Length0 && Rows(before, m.Length1) && i < m.Length0 && |row| == m.Length1
    requires forall k, j :: 0 <= k < m.Length0 && k != i && 0 <= j < m.Length1 ==> m[k, j] == before[k][j]
    requires forall j :: 0 <= j < m.Length1 ==> m[i, j] == row[j]
    ensures ToMatrix(m) == before[i := row]
  {
    EntriesToMatrix(m, before[i := row]);
  }

  /** The inner-boundary block of `jacobian`: overwrites row 0 of `jac` and
      `rhs[0]` and nothing else. */
  method ApplyInner(jac: array2<real>, rhs: array<real>, inner: Option<Condition>, g: Grid, dt: real)
    requires g.Valid() && jac.Length0 == g.N() && jac.Length1 == g.N() && rhs.Length == g.N()
    requires InnerDefined(inner, g, dt)
    modifies jac, rhs
    ensures ToMatrix(jac) == old(ToMatrix(jac))[0 := InnerRow(inner, old(ToMatrix(jac))[0], g, dt)]
    ensures rhs[..] == old(rhs[..])[0 := InnerRhs(inner, old(rhs[0]), g)]
  {
    ghost var before := ToMatrix(jac);
    ghost var row := InnerRow(inner, before[0], g, dt);
    match inner {
      case None =>
      case Some(Val(v)) =>
        jac[0, 0] := 0.0;
        rhs[0] := v;
      case Some(ConstVal) =>
        jac[0, 0] := 0.0;
        jac[0, 1] := 1.0 / dt;
        rhs[0] := 0.0;
      case Some(Grad(v)) =>
        var k1 := InnerGradK1(g);
        jac[0, 0] := 0.0;
        jac[0, 1] := - k1 / dt;
        rhs[0] := - g.ri[1] / g.r[0] * (g.r[1] - g.r[0]) * v;
        assert rhs[0] == InnerRhs(inner, old(rhs[0]), g);
      case Some(ConstGrad) =>
        var k1 := InnerK1(g);
        var k2 := InnerK2(g);
        jac[0, 0] := 0.0;
        jac[0, 1] := - k1 / dt;
        jac[0, 2] := - k2 / dt;
        rhs[0] := 0.0;
    }
    RowReplaced(jac, before, 0, row);
  }

  /** The outer-boundary block of `jacobian`: overwrites row N-1 of `jac` and
      `rhs[N-1]` and nothing else. */
  method ApplyOuter(jac: array2<real>, rhs: array<real>, outer: Option<Condition>, g: Grid, dt: real)
    requires g.Valid() && jac.Length0 == g.N() && jac.Length1 == g.N() && rhs.Length == g.N()
    requires OuterDefined(outer, g, dt)
    modifies jac, rhs
    ensures ToMatrix(jac) == old(ToMatrix(jac))[g.N() - 1 := OuterRow(outer, old(ToMatrix(jac))[g.N() - 1], g, dt)]
    ensures rhs[..] == old(rhs[..])[g.N() - 1 := OuterRhs(outer, old(rhs[g.N() - 1]), g)]
  {
    var n := g.N();
    ghost var before := ToMatrix(jac);
    ghost var row := OuterRow(outer, before[n - 1], g, dt);
    match outer {
      case None =>
      case Some(Val(v)) =>
        jac[n - 1, n - 1] := 0.0;
        rhs[n - 1] := v;
      case Some(ConstVal) =>
        jac[n - 1, n - 1] := 0.0;
        jac[n - 1, n - 2] := 1.0 / dt;
        rhs[n - 1] := 0.0;
      case Some(Grad(v)) =>
        var kNrm2 := OuterGradKNrm2(g);
        jac[n - 1, n - 1] := 0.0;
        jac[n - 1, n - 2] := - kNrm2 / dt;
        rhs[n - 1] := g.ri[n - 1] / g.r[n - 1] * (g.r[n - 1] - g.r[n - 2]) * v;
        assert rhs[n - 1] == OuterRhs(outer, old(rhs[n - 1]), g);
      case Some(ConstGrad) =>
        var kNrm2 := OuterKNrm2(g);
        var kNrm3 := OuterKNrm3(g);
        jac[n - 1, n - 1] := 0.0;
        jac[n - 1, n - 2] := - kNrm2 / dt;
        jac[n - 1, n - 3] := - kNrm3 / dt;
        rhs[n - 1] := 0.0;
    }
    RowReplaced(jac, before, n - 1, row);
  }

  /** `jacobian`: assembles the tri-diagonal matrix from the kernel's bands,
      copies Sigma into the `_rhs` buffer and applies both boundary overrides. */
  method Jacobian(b: Bands, g: Grid, dt: real, inner: Option<Condition>, outer: Option<Condition>,
                  sigma: seq<real>, rhs: array<real>)
    returns (jac: array2<real>)
    requires Setup(b, g, dt, inner, outer) && |sigma| == g.N() && rhs.Length == g.N()
    modifies rhs
    ensures fresh(jac) && jac.Length0 == g.N() && jac.Length1 == g.N()
    ensures ToMatrix(jac) == JacobianMatrix(b, g, dt, inner, outer)
    ensures rhs[..] == RhsVector(sigma, g, inner, outer)
  {
    var n := g.N();
    var tri := Assembled(b);
    jac := new real[n, n]((i, j) requires 0 <= i < n && 0 <= j < n => tri[i][j]);
    EntriesToMatrix(jac, tri);
    forall i | 0 <= i < n {
      rhs[i] := sigma[i];
    }
    assert rhs[..] == sigma;
    ApplyInner(jac, rhs, inner, g, dt);
    ghost var mid := tri[0 := InnerRow(inner, tri[0], g, dt)];
    assert ToMatrix(jac) == mid && mid[n - 1] == tri[n - 1];
    ApplyOuter(jac, rhs, outer, g, dt);
  }

  /** `_f_impl_1_euler_direct` with a given `jac` and `rhs`: adds the external
      sources to the interior of `rhs` in place, then solves
      `(I - dx jac) Y1 = rhs` and returns `Y1 - Y0`. `inverse` stands for the
      result of `np.linalg.inv(I - dx jac)`; the model uses nothing of it but
      its defining equation. */
  method ImplicitEulerDirect(y0: seq<real>, dx: real, jac: array2<real>, rhs: array<real>,
                             sExt: seq<real>, inverse: seq<seq<real>>)
    returns (dY: seq<real>)
    requires jac.Length0 == |y0| && jac.Length1 == |y0| && rhs.Length == |y0| && |sExt| == |y0|
    requires |inverse| == |y0| && IsSquare(inverse)
    requires MatMul(ImplicitMatrix(ToMatrix(jac), dx), inverse) == Identity(|y0|)
    modifies rhs
    ensures rhs[..] == WithSource(old(rhs[..]), dx, sExt)
    ensures |dY| == |y0|
    ensures MatVec(ImplicitMatrix(ToMatrix(jac), dx), Add(y0, dY)) == rhs[..]
  {
    var n := rhs.Length;
    forall i | 1 <= i < n - 1 {
      rhs[i] := rhs[i] + dx * sExt[i];
    }
    assert forall i :: 0 <= i < n ==> rhs[..][i] == WithSource(old(rhs[..]), dx, sExt)[i];
    assert rhs[..] == WithSource(old(rhs[..]), dx, sExt);
    var a := ImplicitMatrix(ToMatrix(jac), dx);
    var y1 := MatVec(inverse, rhs[..]);
    SolveByRightInverse(a, inverse, rhs[..]);
    dY := Sub(y1, y0);
    assert Add(y0, dY) == y1;
  }

  /** One gas step as the integrator runs it when no Jacobian is passed in:
      `jacobian` builds `jac` and fills the `_rhs` buffer, then
      `_f_impl_1_euler_direct` adds the sources to that buffer and solves.
      `jacobian` reads its step size from the simulation clock and the solve
      uses `dx`; both are the same step here, `dt`. */
  method ImplicitGasStep(b: Bands, g: Grid, dt: real, inner: Option<Condition>, outer: Option<Condition>,
                         sigma: seq<real>, sExt: seq<real>, rhs: array<real>, inverse: seq<seq<real>>)
    returns (dY: seq<real>)
    requires Setup(b, g, dt, inner, outer) && |sigma| == g.N() && |sExt| == g.N() && rhs.Length == g.N()
    requires |inverse| == g.N() && IsSquare(inverse)
    requires MatMul(ImplicitMatrix(JacobianMatrix(b, g, dt, inner, outer), dt), inverse) == Identity(g.N())
    modifies rhs
    ensures |dY| == g.N()
    ensures rhs[..] == WithSource(RhsVector(sigma, g, inner, outer), dt, sExt)
    ensures MatVec(ImplicitMatrix(JacobianMatrix(b, g, dt, inner, outer), dt), Add(sigma, dY)) == rhs[..]
  {
    var jac := Jacobian(b, g, dt, inner, outer, sigma, rhs);
    dY := ImplicitEulerDirect(sigma, dt, jac, rhs, sExt, inverse);
  }

  /** `enforce_floor_value`: `Sigma[:] = np.maximum(Sigma, SigmaFloor)`. */
  method EnforceFloorValue(sigma: array<real>, floor: seq<real>)
    requires |floor| == sigma.Length
    modifies sigma
    ensures sigma[..] == Floored(old(sigma[..]), floor)
  {
    forall i | 0 <= i < sigma.Length {
      sigma[i] := Max(sigma[i], floor[i]);
    }
  }
}
