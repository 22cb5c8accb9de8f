/** What the implicit gas step guarantees: the band structure of the assembled
    Jacobian, which rows the boundary handling touches, the closed form of the
    boundary rows of `I - dt J` (with the `1/dt` cancelled), the relations
    every solution of the step satisfies, and the floor clamp. */
module GasProperties {
  import opened LinAlg
  import opened Gas

  // ---------------------------------------------------------------------
  // Tri-diagonal assembly
  // ---------------------------------------------------------------------

  /** The band description of the assembled matrix. */
  function BandEntry(b: Bands, i: nat, j: nat): real
    requires i < |b.diag| && b.Fits(|b.diag|)
  {
    if j == i then b.diag[i]
    else if j + 1 == i then b.lower[i]
    else if j == i + 1 then b.upper[i]
    else 0.0
  }

  /** `diag(A[1:], -1) + diag(B) + diag(C[:-1], 1)` puts `B[i]` on the diagonal,
      `A[i]` left of it and `C[i]` right of it, and zero everywhere else. */
  lemma AssembledBand(b: Bands)
    requires |b.diag| >= 1 && b.Fits(|b.diag|)
    ensures forall i, j :: 0 <= i < |b.diag| && 0 <= j < |b.diag| ==> Assembled(b)[i][j] == BandEntry(b, i, j)
  {
  }

  /** The first entry of `A` and the last entry of `C` fall outside the matrix. */
  lemma AssembledIgnoresEnds(b: Bands, a0: real, cLast: real)
    requires |b.diag| >= 1 && b.Fits(|b.diag|)
    ensures Assembled(Bands(b.lower[0 := a0], b.diag, b.upper[|b.diag| - 1 := cLast])) == Assembled(b)
  {
    var n := |b.diag|;
    var b' := Bands(b.lower[0 := a0], b.diag, b.upper[n - 1 := cLast]);
    AssembledBand(b);
    AssembledBand(b');
    forall i | 0 <= i < n
      ensures Assembled(b')[i] == Assembled(b)[i]
    {
      assert forall j :: 0 <= j < n ==> BandEntry(b', i, j) == BandEntry(b, i, j);
    }
  }

  // ---------------------------------------------------------------------
  // Which rows the boundary handling touches
  // ---------------------------------------------------------------------

  /** Rows 1 .. N-2 of `jac` stay as assembled and entries 1 .. N-2 of `_rhs`
      hold Sigma. */
  lemma InteriorRowsUntouched(b: Bands, g: Grid, dt: real, inner: Option<Condition>, outer: Option<Condition>,
                              sigma: seq<real>, i: nat)
    requires Setup(b, g, dt, inner, outer) && |sigma| == g.N()
    requires 1 <= i < g.N() - 1
    ensures JacobianMatrix(b, g, dt, inner, outer)[i] == Assembled(b)[i]
    ensures RhsVector(sigma, g, inner, outer)[i] == sigma[i]
  {
  }

  /** A boundary that is `None` leaves its row of `jac` as assembled and its
      entry of `_rhs` at Sigma. */
  lemma AbsentBoundaryKeepsRow(b: Bands, g: Grid, dt: real, inner: Option<Condition>, outer: Option<Condition>,
                               sigma: seq<real>)
    requires Setup(b, g, dt, inner, outer) && |sigma| == g.N()
    ensures inner == None ==>
      JacobianMatrix(b, g, dt, inner, outer)[0] == Assembled(b)[0]
      && RhsVector(sigma, g, inner, outer)[0] == sigma[0]
    ensures outer == None ==>
      JacobianMatrix(b, g, dt, inner, outer)[g.N() - 1] == Assembled(b)[g.N() - 1]
      && RhsVector(sigma, g, inner, outer)[g.N() - 1] == sigma[g.N() - 1]
  {
  }

  /** "val" zeroes only the diagonal entry of its row and puts the value into
      `_rhs`: the off-diagonal entry of the assembled row survives. */
  lemma ValKeepsNeighbour(b: Bands, g: Grid, dt: real, inner: Option<Condition>, outer: Option<Condition>,
                          sigma: seq<real>)
    requires Setup(b, g, dt, inner, outer) && |sigma| == g.N()
    ensures inner.Some? && inner.cond.Val? ==>
      var first := JacobianMatrix(b, g, dt, inner, outer)[0];
      first[0] == 0.0 && first[1] == b.upper[0]
      && (forall j :: 2 <= j < g.N() ==> first[j] == 0.0)
      && RhsVector(sigma, g, inner, outer)[0] == inner.cond.value
    ensures outer.Some? && outer.cond.Val? ==>
      var n := g.N();
      var last := JacobianMatrix(b, g, dt, inner, outer)[n - 1];
      last[n - 1] == 0.0 && last[n - 2] == b.lower[n - 1]
      && (forall j :: 0 <= j < n - 2 ==> last[j] == 0.0)
      && RhsVector(sigma, g, inner, outer)[n - 1] == outer.cond.value
  {
    AssembledBand(b);
  }

  // ---------------------------------------------------------------------
  // Boundary coefficients
  // ---------------------------------------------------------------------

  /** The inner "grad" coefficient `K1 = -r[1]/r[0]` makes a profile with
      constant `r * Sigma` (Sigma = 1/r) satisfy the row with gradient zero. */
  lemma InnerGradCoefficient(g: Grid)
    requires g.Valid() && g.r[0] != 0.0 && g.r[1] != 0.0
    ensures 1.0 / g.r[0] + InnerGradK1(g) / g.r[1] == 0.0
  {
    assert InnerGradK1(g) / g.r[1] == - 1.0 / g.r[0];
  }

  /** The inner "const_grad" coefficients: `K1` is the "grad" coefficient
      scaled by `1 + Di`, and a profile with constant `r * Sigma` satisfies
      the row `Sigma[0] + K1 Sigma[1] + K2 Sigma[2] == 0`. */
  lemma InnerConstGradCoefficients(g: Grid)
    requires g.Valid() && g.r[0] != 0.0 && g.r[1] != 0.0 && g.r[2] != 0.0
    requires g.ri[2] != 0.0 && g.r[2] != g.r[0]
    ensures InnerK1(g) == InnerGradK1(g) * (1.0 + InnerDi(g))
    ensures 1.0 / g.r[0] + InnerK1(g) / g.r[1] + InnerK2(g) / g.r[2] == 0.0
  {
    var d := InnerDi(g);
    assert InnerK1(g) / g.r[1] == - (1.0 + d) / g.r[0];
    assert InnerK2(g) / g.r[2] == d / g.r[0];
  }

  /** A ratio of two positive numbers, the smaller on top. */
  lemma RatioBelowOne(x: real, y: real)
    requires 0.0 < x < y
    ensures 0.0 < x / y < 1.0
  {
    var t := x / y;
    assert t * y == x;
    if t >= 1.0 {
      assert false;
    }
  }

  /** On a grid whose first centres and interfaces increase, `Di` lies strictly
      between 0 and 1: both of its factors do. */
  lemma InnerDiBounds(g: Grid)
    requires g.Valid() && 0.0 < g.r[0] < g.r[1] < g.r[2] && 0.0 < g.ri[1] < g.ri[2]
    ensures 0.0 < InnerDi(g) < 1.0
  {
    var p, q := g.ri[1] / g.ri[2], (g.r[1] - g.r[0]) / (g.r[2] - g.r[0]);
    RatioBelowOne(g.ri[1], g.ri[2]);
    RatioBelowOne(g.r[1] - g.r[0], g.r[2] - g.r[0]);
    assert InnerDi(g) == p * q;
    assert p * q < 1.0 * q;
  }

  /** The outer "grad" coefficient `KNrm2 = -r[N-2]/r[N-1]` makes a profile
      with constant `r * Sigma` satisfy the row with gradient zero. */
  lemma OuterGradCoefficient(g: Grid)
    requires g.Valid() && g.r[g.N() - 1] != 0.0 && g.r[g.N() - 2] != 0.0
    ensures 1.0 / g.r[g.N() - 1] + OuterGradKNrm2(g) / g.r[g.N() - 2] == 0.0
  {
    assert OuterGradKNrm2(g) / g.r[g.N() - 2] == - 1.0 / g.r[g.N() - 1];
  }

  /** The outer "const_grad" coefficients: `KNrm2` is the "grad" coefficient
      scaled by `1 + Do`, and a profile with constant `r * Sigma` satisfies
      the row `Sigma[N-1] + KNrm2 Sigma[N-2] + KNrm3 Sigma[N-3] == 0`. */
  lemma OuterConstGradCoefficients(g: Grid)
    requires g.Valid() && g.r[g.N() - 1] != 0.0 && g.r[g.N() - 2] != 0.0 && g.r[g.N() - 3] != 0.0
    requires g.ri[g.N() - 2] != 0.0 && g.r[g.N() - 2] != g.r[g.N() - 3]
    ensures OuterKNrm2(g) == OuterGradKNrm2(g) * (1.0 + OuterDo(g))
    ensures 1.0 / g.r[g.N() - 1] + OuterKNrm2(g) / g.r[g.N() - 2] + OuterKNrm3(g) / g.r[g.N() - 3] == 0.0
  {
    var n, d := g.N(), OuterDo(g);
    assert OuterKNrm2(g) / g.r[n - 2] == - (1.0 + d) / g.r[n - 1];
    assert OuterKNrm3(g) / g.r[n - 3] == d / g.r[n - 1];
  }

  /** On a grid whose last centres and interfaces increase, `Do` is positive.
      Unlike `Di` it has no bound below 1: its interface factor
      `ri[N-1]/ri[N-2]` exceeds 1 on such a grid. */
  lemma OuterDoBounds(g: Grid)
    requires g.Valid() && 0.0 < g.r[g.N() - 3] < g.r[g.N() - 2] < g.r[g.N() - 1]
    requires 0.0 < g.ri[g.N() - 2] < g.ri[g.N() - 1]
    ensures OuterDo(g) > 0.0
    ensures g.ri[g.N() - 1] / g.ri[g.N() - 2] > 1.0
  {
    var n := g.N();
    var p, q := g.ri[n - 1] / g.ri[n - 2], (g.r[n - 1] - g.r[n - 2]) / (g.r[n - 2] - g.r[n - 3]);
    assert p > 1.0;
    assert q > 0.0;
    assert OuterDo(g) == p * q;
  }

  // ---------------------------------------------------------------------
  // Rows of the implicit system I - dt J
  // ---------------------------------------------------------------------

  /** The conditions whose row of `I - dt J` does not depend on `dt`. */
  predicate FixesRow(c: Option<Condition>)
  {
    c.Some? && !c.cond.Val?
  }

  /** A row of length `n` holding `x0, x1, x2` in its first three entries. */
  function HeadRow(n: nat, x0: real, x1: real, x2: real): seq<real>
  {
    seq(n, j => if j == 0 then x0 else if j == 1 then x1 else if j == 2 then x2 else 0.0)
  }

  /** A row of length `n` holding `x0, x1, x2` in its last, last but one and
      last but two entries. */
  function TailRow(n: nat, x0: real, x1: real, x2: real): seq<real>
  {
    seq(n, j => if j == n - 1 then x0 else if j == n - 2 then x1 else if j == n - 3 then x2 else 0.0)
  }

  /** A row of length `n` holding `xl, xd, xu` at positions `i - 1, i, i + 1`. */
  function MidRow(n: nat, i: nat, xl: real, xd: real, xu: real): seq<real>
  {
    seq(n, j => if j + 1 == i then xl else if j == i then xd else if j == i + 1 then xu else 0.0)
  }

  /** Entries 0, 1 and 2 of row 0 of `I - dt J`: the boundary cell, its
      neighbour and the next cell. */
  function InnerCoefficients(c: Option<Condition>, b: Bands, g: Grid, dt: real): (real, real, real)
    requires g.Valid() && b.Fits(g.N()) && InnerDefined(c, g, dt)
  {
    match c
    case None => (1.0 - dt * b.diag[0], - dt * b.upper[0], 0.0)
    case Some(Val(_)) => (1.0, - dt * b.upper[0], 0.0)
    case Some(ConstVal) => (1.0, -1.0, 0.0)
    case Some(Grad(_)) => (1.0, InnerGradK1(g), 0.0)
    case Some(ConstGrad) => (1.0, InnerK1(g), InnerK2(g))
  }

  /** Entries N-1, N-2 and N-3 of row N-1 of `I - dt J`. */
  function OuterCoefficients(c: Option<Condition>, b: Bands, g: Grid, dt: real): (real, real, real)
    requires g.Valid() && b.Fits(g.N()) && OuterDefined(c, g, dt)
  {
    var n := g.N();
    match c
    case None => (1.0 - dt * b.diag[n - 1], - dt * b.lower[n - 1], 0.0)
    case Some(Val(_)) => (1.0, - dt * b.lower[n - 1], 0.0)
    case Some(ConstVal) => (1.0, -1.0, 0.0)
    case Some(Grad(_)) => (1.0, OuterGradKNrm2(g), 0.0)
    case Some(ConstGrad) => (1.0, OuterKNrm2(g), OuterKNrm3(g))
  }

  /** Row 0 of `I - dt J`, in closed form. */
  function InnerSystemRow(c: Option<Condition>, b: Bands, g: Grid, dt: real): seq<real>
    requires g.Valid() && b.Fits(g.N()) && InnerDefined(c, g, dt)
  {
    var x := InnerCoefficients(c, b, g, dt);
    HeadRow(g.N(), x.0, x.1, x.2)
  }

  /** Row N-1 of `I - dt J`, in closed form. */
  function OuterSystemRow(c: Option<Condition>, b: Bands, g: Grid, dt: real): seq<real>
    requires g.Valid() && b.Fits(g.N()) && OuterDefined(c, g, dt)
  {
    var x := OuterCoefficients(c, b, g, dt);
    TailRow(g.N(), x.0, x.1, x.2)
  }

  /** Row `i` of `I - dt J`, given row `i` of `J`. */
  function ScaledRow(row: seq<real>, i: nat, dt: real): seq<real>
  {
    seq(|row|, j requires 0 <= j < |row| => (if j == i then 1.0 else 0.0) - dt * row[j])
  }

  lemma ImplicitRow(J: seq<seq<real>>, dt: real, i: nat)
    requires IsSquare(J) && i < |J|
    ensures ImplicitMatrix(J, dt)[i] == ScaledRow(J[i], i, dt)
  {
  }

  /** `R` is zero after its first three entries, which scale to `x0, x1, x2`
      in row 0 of `I - dt J`. */
  ghost predicate HeadScales(R: seq<real>, dt: real, n: nat, x0: real, x1: real, x2: real)
  {
    |R| == n >= 3 && (forall j :: 3 <= j < n ==> R[j] == 0.0)
    && 1.0 - dt * R[0] == x0 && - dt * R[1] == x1 && - dt * R[2] == x2
  }

  /** `R` is zero before its last three entries, which scale to `x0, x1, x2`
      (from the diagonal leftwards) in row N-1 of `I - dt J`. */
  ghost predicate TailScales(R: seq<real>, dt: real, n: nat, x0: real, x1: real, x2: real)
  {
    |R| == n >= 3 && (forall j :: 0 <= j < n - 3 ==> R[j] == 0.0)
    && 1.0 - dt * R[n - 1] == x0 && - dt * R[n - 2] == x1 && - dt * R[n - 3] == x2
  }

  /** Row 0 of `I - dt J` from a row of `J` that is zero after its first three entries. */
  lemma ScaledHead(R: seq<real>, dt: real, n: nat, x0: real, x1: real, x2: real)
    requires HeadScales(R, dt, n, x0, x1, x2)
    ensures ScaledRow(R, 0, dt) == HeadRow(n, x0, x1, x2)
  {
    var S, H := ScaledRow(R, 0, dt), HeadRow(n, x0, x1, x2);
    assert forall j :: 0 <= j < n ==> S[j] == H[j];
  }

  /** Row N-1 of `I - dt J` from a row of `J` that is zero before its last three entries. */
  lemma ScaledTail(R: seq<real>, dt: real, n: nat, x0: real, x1: real, x2: real)
    requires TailScales(R, dt, n, x0, x1, x2)
    ensures ScaledRow(R, n - 1, dt) == TailRow(n, x0, x1, x2)
  {
    var S, T := ScaledRow(R, n - 1, dt), TailRow(n, x0, x1, x2);
    assert forall j :: 0 <= j < n ==> S[j] == T[j];
  }

  /** `R` holds `l, d, u` around position `i` and zero everywhere else. */
  ghost predicate MidBand(R: seq<real>, n: nat, i: nat, l: real, d: real, u: real)
  {
    |R| == n && 1 <= i < n - 1 && R[i - 1] == l && R[i] == d && R[i + 1] == u
    && forall j :: 0 <= j < n && (j + 1 < i || i + 1 < j) ==> R[j] == 0.0
  }

  /** Row `i` of `I - dt J` from a row of `J` that is zero away from `i - 1 .. i + 1`. */
  lemma ScaledMid(R: seq<real>, dt: real, n: nat, i: nat, l: real, d: real, u: real, xl: real, xd: real, xu: real)
    requires MidBand(R, n, i, l, d, u)
    requires xl == - dt * l && xd == 1.0 - dt * d && xu == - dt * u
    ensures ScaledRow(R, i, dt) == MidRow(n, i, xl, xd, xu)
  {
    var S, M := ScaledRow(R, i, dt), MidRow(n, i, xl, xd, xu);
    assert forall j :: 0 <= j < n ==> S[j] == M[j];
  }

  /** The `1/dt` the boundary handling writes into `jac` cancels against the
      `dt` of the implicit step. */
  lemma Cancel(dt: real, x: real)
    requires dt != 0.0
    ensures - dt * (- x / dt) == x
  {
  }

  /** Row 0 of the assembled matrix: `B[0]`, `C[0]`, then zeros. */
  ghost predicate FirstBandRow(row: seq<real>, b: Bands)
    requires |b.diag| >= 3 && b.Fits(|b.diag|)
  {
    |row| == |b.diag| && row[0] == b.diag[0] && row[1] == b.upper[0]
    && forall j :: 2 <= j < |row| ==> row[j] == 0.0
  }

  /** Row N-1 of the assembled matrix: zeros, then `A[N-1]`, `B[N-1]`. */
  ghost predicate LastBandRow(row: seq<real>, b: Bands)
    requires |b.diag| >= 3 && b.Fits(|b.diag|)
  {
    var n := |b.diag|;
    |row| == n && row[n - 1] == b.diag[n - 1] && row[n - 2] == b.lower[n - 1]
    && forall j :: 0 <= j < n - 2 ==> row[j] == 0.0
  }

  /** The inner override of row 0 of `J`, scaled by `-dt` with one added on
      the diagonal, gives the inner coefficients and zeros after them. */
  ghost predicate InnerOverrideScales(c: Option<Condition>, b: Bands, g: Grid, dt: real, row: seq<real>)
    requires g.Valid() && b.Fits(g.N()) && InnerDefined(c, g, dt) && |row| == g.N()
  {
    var x := InnerCoefficients(c, b, g, dt);
    HeadScales(InnerRow(c, row, g, dt), dt, g.N(), x.0, x.1, x.2)
  }

  lemma InnerNoneScales(c: Option<Condition>, b: Bands, g: Grid, dt: real, row: seq<real>)
    requires c == None && g.Valid() && b.Fits(g.N()) && FirstBandRow(row, b)
    ensures InnerOverrideScales(c, b, g, dt, row)
  {
  }

  lemma InnerValScales(c: Option<Condition>, v: real, b: Bands, g: Grid, dt: real, row: seq<real>)
    requires c == Some(Val(v)) && g.Valid() && b.Fits(g.N()) && FirstBandRow(row, b)
    ensures InnerOverrideScales(c, b, g, dt, row)
  {
  }

  lemma InnerConstValScales(c: Option<Condition>, b: Bands, g: Grid, dt: real, row: seq<real>)
    requires c == Some(ConstVal) && g.Valid() && b.Fits(g.N()) && dt != 0.0 && FirstBandRow(row, b)
    ensures InnerOverrideScales(c, b, g, dt, row)
  {
    Cancel(dt, -1.0);
  }

  lemma InnerGradScales(c: Option<Condition>, v: real, b: Bands, g: Grid, dt: real, row: seq<real>)
    requires c == Some(Grad(v)) && g.Valid() && b.Fits(g.N()) && InnerDefined(c, g, dt) && FirstBandRow(row, b)
    ensures InnerOverrideScales(c, b, g, dt, row)
  {
    Cancel(dt, InnerGradK1(g));
  }

  lemma InnerConstGradScales(c: Option<Condition>, b: Bands, g: Grid, dt: real, row: seq<real>)
    requires c == Some(ConstGrad) && g.Valid() && b.Fits(g.N()) && InnerDefined(c, g, dt) && FirstBandRow(row, b)
    ensures InnerOverrideScales(c, b, g, dt, row)
  {
    Cancel(dt, InnerK1(g));
    Cancel(dt, InnerK2(g));
  }

  lemma InnerCoefficientsFromRow(c: Option<Condition>, b: Bands, g: Grid, dt: real, row: seq<real>)
    requires g.Valid() && b.Fits(g.N()) && InnerDefined(c, g, dt) && FirstBandRow(row, b)
    ensures InnerOverrideScales(c, b, g, dt, row)
  {
    match c {
      case None => InnerNoneScales(c, b, g, dt, row);
      case Some(Val(v)) => InnerValScales(c, v, b, g, dt, row);
      case Some(ConstVal) => InnerConstValScales(c, b, g, dt, row);
      case Some(Grad(v)) => InnerGradScales(c, v, b, g, dt, row);
      case Some(ConstGrad) => InnerConstGradScales(c, b, g, dt, row);
    }
  }

  /** The outer override of row N-1 of `J`, scaled by `-dt` with one added on
      the diagonal, gives the outer coefficients and zeros before them. */
  ghost predicate OuterOverrideScales(c: Option<Condition>, b: Bands, g: Grid, dt: real, row: seq<real>)
    requires g.Valid() && b.Fits(g.N()) && OuterDefined(c, g, dt) && |row| == g.N()
  {
    var x := OuterCoefficients(c, b, g, dt);
    TailScales(OuterRow(c, row, g, dt), dt, g.N(), x.0, x.1, x.2)
  }

  lemma OuterNoneScales(c: Option<Condition>, b: Bands, g: Grid, dt: real, row: seq<real>)
    requires c == None && g.Valid() && b.Fits(g.N()) && LastBandRow(row, b)
    ensures OuterOverrideScales(c, b, g, dt, row)
  {
  }

  lemma OuterValScales(c: Option<Condition>, v: real, b: Bands, g: Grid, dt: real, row: seq<real>)
    requires c == Some(Val(v)) && g.Valid() && b.Fits(g.N()) && LastBandRow(row, b)
    ensures OuterOverrideScales(c, b, g, dt, row)
  {
  }

  lemma OuterConstValScales(c: Option<Condition>, b: Bands, g: Grid, dt: real, row: seq<real>)
    requires c == Some(ConstVal) && g.Valid() && b.Fits(g.N()) && dt != 0.0 && LastBandRow(row, b)
    ensures OuterOverrideScales(c, b, g, dt, row)
  {
    Cancel(dt, -1.0);
  }

  lemma OuterGradScales(c: Option<Condition>, v: real, b: Bands, g: Grid, dt: real, row: seq<real>)
    requires c == Some(Grad(v)) && g.Valid() && b.Fits(g.N()) && OuterDefined(c, g, dt) && LastBandRow(row, b)
    ensures OuterOverrideScales(c, b, g, dt, row)
  {
    Cancel(dt, OuterGradKNrm2(g));
  }

  lemma OuterConstGradScales(c: Option<Condition>, b: Bands, g: Grid, dt: real, row: seq<real>)
    requires c == Some(ConstGrad) && g.Valid() && b.Fits(g.N()) && OuterDefined(c, g, dt) && LastBandRow(row, b)
    ensures OuterOverrideScales(c, b, g, dt, row)
  {
    Cancel(dt, OuterKNrm2(g));
    Cancel(dt, OuterKNrm3(g));
  }

  lemma OuterCoefficientsFromRow(c: Option<Condition>, b: Bands, g: Grid, dt: real, row: seq<real>)
    requires g.Valid() && b.Fits(g.N()) && OuterDefined(c, g, dt) && LastBandRow(row, b)
    ensures OuterOverrideScales(c, b, g, dt, row)
  {
    match c {
      case None => OuterNoneScales(c, b, g, dt, row);
      case Some(Val(v)) => OuterValScales(c, v, b, g, dt, row);
      case Some(ConstVal) => OuterConstValScales(c, b, g, dt, row);
      case Some(Grad(v)) => OuterGradScales(c, v, b, g, dt, row);
      case Some(ConstGrad) => OuterConstGradScales(c, b, g, dt, row);
    }
  }

  /** Row 0 of `J` is the inner override of the first band row. */
  lemma JacobianFirstRow(b: Bands, g: Grid, dt: real, inner: Option<Condition>, outer: Option<Condition>)
    requires Setup(b, g, dt, inner, outer)
    ensures FirstBandRow(Assembled(b)[0], b)
    ensures JacobianMatrix(b, g, dt, inner, outer)[0] == InnerRow(inner, Assembled(b)[0], g, dt)
  {
    AssembledBand(b);
  }

  /** Row N-1 of `J` is the outer override of the last band row. */
  lemma JacobianLastRow(b: Bands, g: Grid, dt: real, inner: Option<Condition>, outer: Option<Condition>)
    requires Setup(b, g, dt, inner, outer)
    ensures LastBandRow(Assembled(b)[g.N() - 1], b)
    ensures JacobianMatrix(b, g, dt, inner, outer)[g.N() - 1] == OuterRow(outer, Assembled(b)[g.N() - 1], g, dt)
  {
    AssembledBand(b);
  }

  /** The inner override of the first band row, scaled as in `I - dt J`. */
  lemma InnerScaledFromOverride(c: Option<Condition>, b: Bands, g: Grid, dt: real, row: seq<real>)
    requires g.Valid() && b.Fits(g.N()) && InnerDefined(c, g, dt) && |row| == g.N()
    requires InnerOverrideScales(c, b, g, dt, row)
    ensures ScaledRow(InnerRow(c, row, g, dt), 0, dt) == InnerSystemRow(c, b, g, dt)
  {
    var x := InnerCoefficients(c, b, g, dt);
    ScaledHead(InnerRow(c, row, g, dt), dt, g.N(), x.0, x.1, x.2);
  }

  lemma InnerScaledRow(c: Option<Condition>, b: Bands, g: Grid, dt: real, row: seq<real>)
    requires g.Valid() && b.Fits(g.N()) && InnerDefined(c, g, dt) && FirstBandRow(row, b)
    ensures ScaledRow(InnerRow(c, row, g, dt), 0, dt) == InnerSystemRow(c, b, g, dt)
  {
    InnerCoefficientsFromRow(c, b, g, dt, row);
    InnerScaledFromOverride(c, b, g, dt, row);
  }

  /** The outer override of the last band row, scaled as in `I - dt J`. */
  lemma OuterScaledFromOverride(c: Option<Condition>, b: Bands, g: Grid, dt: real, row: seq<real>)
    requires g.Valid() && b.Fits(g.N()) && OuterDefined(c, g, dt) && |row| == g.N()
    requires OuterOverrideScales(c, b, g, dt, row)
    ensures ScaledRow(OuterRow(c, row, g, dt), g.N() - 1, dt) == OuterSystemRow(c, b, g, dt)
  {
    var x := OuterCoefficients(c, b, g, dt);
    ScaledTail(OuterRow(c, row, g, dt), dt, g.N(), x.0, x.1, x.2);
  }

  lemma OuterScaledRow(c: Option<Condition>, b: Bands, g: Grid, dt: real, row: seq<real>)
    requires g.Valid() && b.Fits(g.N()) && OuterDefined(c, g, dt) && LastBandRow(row, b)
    ensures ScaledRow(OuterRow(c, row, g, dt), g.N() - 1, dt) == OuterSystemRow(c, b, g, dt)
  {
    OuterCoefficientsFromRow(c, b, g, dt, row);
    OuterScaledFromOverride(c, b, g, dt, row);
  }

  /** Row 0 of `I - dt J`: the `1/dt` the boundary handling puts into `jac`
      cancels against the `dt` of the implicit step. */
  lemma InnerSystemRowClosedForm(b: Bands, g: Grid, dt: real, inner: Option<Condition>, outer: Option<Condition>)
    requires Setup(b, g, dt, inner, outer)
    ensures ImplicitMatrix(JacobianMatrix(b, g, dt, inner, outer), dt)[0] == InnerSystemRow(inner, b, g, dt)
  {
    JacobianFirstRow(b, g, dt, inner, outer);
    InnerScaledRow(inner, b, g, dt, Assembled(b)[0]);
    ImplicitRow(JacobianMatrix(b, g, dt, inner, outer), dt, 0);
  }

  /** Row N-1 of `I - dt J`, symmetric to the inner one. */
  lemma OuterSystemRowClosedForm(b: Bands, g: Grid, dt: real, inner: Option<Condition>, outer: Option<Condition>)
    requires Setup(b, g, dt, inner, outer)
    ensures ImplicitMatrix(JacobianMatrix(b, g, dt, inner, outer), dt)[g.N() - 1] == OuterSystemRow(outer, b, g, dt)
  {
    JacobianLastRow(b, g, dt, inner, outer);
    OuterScaledRow(outer, b, g, dt, Assembled(b)[g.N() - 1]);
    ImplicitRow(JacobianMatrix(b, g, dt, inner, outer), dt, g.N() - 1);
  }

  /** Interior rows of `J` are the assembled band rows. */
  lemma JacobianInteriorRow(b: Bands, g: Grid, dt: real, inner: Option<Condition>, outer: Option<Condition>, i: nat)
    requires Setup(b, g, dt, inner, outer) && 1 <= i < g.N() - 1
    ensures MidBand(JacobianMatrix(b, g, dt, inner, outer)[i], g.N(), i, b.lower[i], b.diag[i], b.upper[i])
  {
    AssembledBand(b);
  }

  /** Interior rows of `I - dt J` are tri-diagonal: `-dt A[i]`, `1 - dt B[i]`,
      `-dt C[i]` around the diagonal and zero elsewhere. */
  lemma InteriorSystemRowClosedForm(b: Bands, g: Grid, dt: real, inner: Option<Condition>, outer: Option<Condition>,
                                    i: nat)
    requires Setup(b, g, dt, inner, outer) && 1 <= i < g.N() - 1
    ensures ImplicitMatrix(JacobianMatrix(b, g, dt, inner, outer), dt)[i]
            == MidRow(g.N(), i, - dt * b.lower[i], 1.0 - dt * b.diag[i], - dt * b.upper[i])
  {
    var J := JacobianMatrix(b, g, dt, inner, outer);
    assert ScaledRow(J[i], i, dt) == MidRow(g.N(), i, - dt * b.lower[i], 1.0 - dt * b.diag[i], - dt * b.upper[i]) by {
      JacobianInteriorRow(b, g, dt, inner, outer, i);
      ScaledMid(J[i], dt, g.N(), i, b.lower[i], b.diag[i], b.upper[i],
                - dt * b.lower[i], 1.0 - dt * b.diag[i], - dt * b.upper[i]);
    }
    ImplicitRow(J, dt, i);
  }

  /** For "const_val", "grad" and "const_grad" the boundary rows of the
      implicit system are the same whatever the step size. */
  lemma BoundaryRowsIndependentOfDt(b: Bands, g: Grid, dt1: real, dt2: real,
                                    inner: Option<Condition>, outer: Option<Condition>)
    requires Setup(b, g, dt1, inner, outer) && Setup(b, g, dt2, inner, outer)
    ensures FixesRow(inner) ==>
      ImplicitMatrix(JacobianMatrix(b, g, dt1, inner, outer), dt1)[0]
      == ImplicitMatrix(JacobianMatrix(b, g, dt2, inner, outer), dt2)[0]
    ensures FixesRow(outer) ==>
      ImplicitMatrix(JacobianMatrix(b, g, dt1, inner, outer), dt1)[g.N() - 1]
      == ImplicitMatrix(JacobianMatrix(b, g, dt2, inner, outer), dt2)[g.N() - 1]
  {
    InnerSystemRowClosedForm(b, g, dt1, inner, outer);
    InnerSystemRowClosedForm(b, g, dt2, inner, outer);
    OuterSystemRowClosedForm(b, g, dt1, inner, outer);
    OuterSystemRowClosedForm(b, g, dt2, inner, outer);
  }

  // ---------------------------------------------------------------------
  // Source accumulation
  // ---------------------------------------------------------------------

  /** `rhs[1:-1] += dx * S_ext[1:-1]` leaves the boundary entries alone, so the
      first and last source entries have no effect. */
  lemma SourceSkipsBoundaries(rhs: seq<real>, dx: real, sExt: seq<real>, s0: real, sLast: real)
    requires |sExt| == |rhs| >= 1
    ensures WithSource(rhs, dx, sExt)[0] == rhs[0]
    ensures WithSource(rhs, dx, sExt)[|rhs| - 1] == rhs[|rhs| - 1]
    ensures WithSource(rhs, dx, sExt[0 := s0][|rhs| - 1 := sLast]) == WithSource(rhs, dx, sExt)
  {
  }

  /** The right-hand side of the implicit system, entry by entry: the boundary
      values in the boundary rows, `Sigma + dt S_ext` in between. */
  lemma SystemRhs(sigma: seq<real>, sExt: seq<real>, g: Grid, dt: real, inner: Option<Condition>, outer: Option<Condition>)
    requires g.Valid() && InnerRhsDefined(inner, g) && OuterRhsDefined(outer, g)
    requires |sigma| == g.N() && |sExt| == g.N()
    ensures WithSource(RhsVector(sigma, g, inner, outer), dt, sExt)[0] == InnerRhs(inner, sigma[0], g)
    ensures WithSource(RhsVector(sigma, g, inner, outer), dt, sExt)[g.N() - 1] == OuterRhs(outer, sigma[g.N() - 1], g)
    ensures forall i :: 1 <= i < g.N() - 1 ==>
              WithSource(RhsVector(sigma, g, inner, outer), dt, sExt)[i] == sigma[i] + dt * sExt[i]
  {
    var R := RhsVector(sigma, g, inner, outer);
    assert forall i :: 1 <= i < g.N() - 1 ==> R[i] == sigma[i];
  }

  // ---------------------------------------------------------------------
  // What every solution of the implicit step satisfies
  // ---------------------------------------------------------------------

  /** The system the step solves, for the new surface density `y`. */
  ghost predicate Solves(b: Bands, g: Grid, dt: real, inner: Option<Condition>, outer: Option<Condition>,
                         sigma: seq<real>, sExt: seq<real>, y: seq<real>)
    requires Setup(b, g, dt, inner, outer) && |sigma| == g.N() && |sExt| == g.N() && |y| == g.N()
  {
    MatVec(ImplicitMatrix(JacobianMatrix(b, g, dt, inner, outer), dt), y)
    == WithSource(RhsVector(sigma, g, inner, outer), dt, sExt)
  }

  /** The relation the inner boundary row imposes on the new surface density. */
  ghost predicate InnerRelation(c: Option<Condition>, b: Bands, g: Grid, dt: real, sigma: seq<real>, y: seq<real>)
    requires g.Valid() && b.Fits(g.N()) && InnerDefined(c, g, dt) && |sigma| == g.N() && |y| == g.N()
  {
    match c
    case None => y[0] - dt * (b.diag[0] * y[0] + b.upper[0] * y[1]) == sigma[0]
    case Some(Val(v)) => y[0] - dt * b.upper[0] * y[1] == v
    case Some(ConstVal) => y[0] == y[1]
    case Some(Grad(v)) => g.r[1] * y[1] - g.r[0] * y[0] == g.ri[1] * (g.r[1] - g.r[0]) * v
    case Some(ConstGrad) => g.r[0] * y[0] - g.r[1] * y[1] == InnerDi(g) * (g.r[1] * y[1] - g.r[2] * y[2])
  }

  /** The relation the outer boundary row imposes on the new surface density. */
  ghost predicate OuterRelation(c: Option<Condition>, b: Bands, g: Grid, dt: real, sigma: seq<real>, y: seq<real>)
    requires g.Valid() && b.Fits(g.N()) && OuterDefined(c, g, dt) && |sigma| == g.N() && |y| == g.N()
  {
    var n := g.N();
    match c
    case None => y[n - 1] - dt * (b.diag[n - 1] * y[n - 1] + b.lower[n - 1] * y[n - 2]) == sigma[n - 1]
    case Some(Val(v)) => y[n - 1] - dt * b.lower[n - 1] * y[n - 2] == v
    case Some(ConstVal) => y[n - 1] == y[n - 2]
    case Some(Grad(v)) =>
      g.r[n - 1] * y[n - 1] - g.r[n - 2] * y[n - 2] == g.ri[n - 1] * (g.r[n - 1] - g.r[n - 2]) * v
    case Some(ConstGrad) =>
      g.r[n - 1] * y[n - 1] - g.r[n - 2] * y[n - 2] == OuterDo(g) * (g.r[n - 2] * y[n - 2] - g.r[n - 3] * y[n - 3])
  }

  /** The equation of a boundary row in the first three cells. */
  ghost predicate HeadBalance(y: seq<real>, x0: real, x1: real, x2: real, rhs: real)
    requires |y| >= 3
  {
    x0 * y[0] + x1 * y[1] + x2 * y[2] == rhs
  }

  /** The equation of a boundary row in the last three cells, read from the last one inwards. */
  ghost predicate TailBalance(y: seq<real>, x0: real, x1: real, x2: real, rhs: real)
    requires |y| >= 3
  {
    x0 * y[|y| - 1] + x1 * y[|y| - 2] + x2 * y[|y| - 3] == rhs
  }

  /** A row `x0, x1, x2, 0, ..., 0` dotted with `y`. */
  lemma HeadEquation(y: seq<real>, n: nat, x0: real, x1: real, x2: real, rhs: real)
    requires |y| == n >= 3 && Dot(HeadRow(n, x0, x1, x2), y) == rhs
    ensures HeadBalance(y, x0, x1, x2, rhs)
  {
    DotHead3(HeadRow(n, x0, x1, x2), y);
  }

  /** A row `0, ..., 0, x2, x1, x0` dotted with `y`, read from the last entry inwards. */
  lemma TailEquation(y: seq<real>, n: nat, x0: real, x1: real, x2: real, rhs: real)
    requires |y| == n >= 3 && Dot(TailRow(n, x0, x1, x2), y) == rhs
    ensures TailBalance(y, x0, x1, x2, rhs)
  {
    DotTail3(TailRow(n, x0, x1, x2), y);
  }

  /** A row holding `xl, xd, xu` around position `i`, dotted with `y`. */
  lemma MidEquation(y: seq<real>, n: nat, i: nat, xl: real, xd: real, xu: real, rhs: real)
    requires |y| == n && 1 <= i < n - 1 && Dot(MidRow(n, i, xl, xd, xu), y) == rhs
    ensures xl * y[i - 1] + xd * y[i] + xu * y[i + 1] == rhs
  {
    DotMid3(MidRow(n, i, xl, xd, xu), y, i);
  }

  // The boundary row `x0 yb + x1 yn + x2 ynn == rhs`, for the boundary cell
  // `yb`, its neighbour `yn` and the next cell `ynn`, solved for what each
  // condition states.

  /** No condition: the implicit Euler balance of the boundary cell. */
  lemma NoneAlgebra(dt: real, d: real, a: real, x0: real, x1: real, x2: real,
                    yb: real, yn: real, ynn: real, rhs: real)
    requires x0 == 1.0 - dt * d && x1 == - dt * a && x2 == 0.0
    requires x0 * yb + x1 * yn + x2 * ynn == rhs
    ensures yb - dt * (d * yb + a * yn) == rhs
  {
  }

  /** "val": the boundary cell minus `dt` times its coupling to the neighbour. */
  lemma ValAlgebra(dt: real, a: real, x0: real, x1: real, x2: real, yb: real, yn: real, ynn: real, v: real)
    requires x0 == 1.0 && x1 == - dt * a && x2 == 0.0
    requires x0 * yb + x1 * yn + x2 * ynn == v
    ensures yb - dt * a * yn == v
  {
  }

  /** "const_val": the boundary cell equals its neighbour. */
  lemma ConstValAlgebra(x0: real, x1: real, x2: real, yb: real, yn: real, ynn: real)
    requires x0 == 1.0 && x1 == -1.0 && x2 == 0.0
    requires x0 * yb + x1 * yn + x2 * ynn == 0.0
    ensures yb == yn
  {
  }

  /** Inner "grad": `K1 = -r[1]/r[0]` and the right-hand side
      `-ri[1]/r[0] (r[1] - r[0]) v`, multiplied by `-r[0]`, prescribe the step of
      r * Sigma across the first interval. */
  lemma InnerGradAlgebra(r0: real, r1: real, ri1: real, v: real, x0: real, x1: real, x2: real,
                         y0: real, y1: real, y2: real)
    requires r0 != 0.0 && x0 == 1.0 && x1 == - r1 / r0 && x2 == 0.0
    requires x0 * y0 + x1 * y1 + x2 * y2 == - ri1 / r0 * (r1 - r0) * v
    ensures r1 * y1 - r0 * y0 == ri1 * (r1 - r0) * v
  {
    var q := ri1 * (r1 - r0) * v;
    assert - ri1 / r0 * (r1 - r0) * v == - q / r0;
    assert r0 * (x1 * y1) == - r1 * y1;
    assert r0 * y0 - r1 * y1 == - q;
  }

  /** Outer "grad", mirrored: the step of r * Sigma across the last interval. */
  lemma OuterGradAlgebra(rl: real, rp: real, ril: real, v: real, x0: real, x1: real, x2: real,
                         yl: real, yp: real, yq: real)
    requires rl != 0.0 && x0 == 1.0 && x1 == - rp / rl && x2 == 0.0
    requires x0 * yl + x1 * yp + x2 * yq == ril / rl * (rl - rp) * v
    ensures rl * yl - rp * yp == ril * (rl - rp) * v
  {
    var q := ril * (rl - rp) * v;
    assert ril / rl * (rl - rp) * v == q / rl;
    assert rl * (x1 * yp) == - rp * yp;
    assert rl * yl - rp * yp == q;
  }

  /** "const_grad": with `x1 = -rn/rb (1 + d)` and `x2 = rnn/rb d`, the row
      multiplied by `rb` says the step of r * Sigma at the boundary is `d`
      times the next one. */
  lemma ConstGradAlgebra(rb: real, rn: real, rnn: real, d: real, x0: real, x1: real, x2: real,
                         yb: real, yn: real, ynn: real)
    requires rb != 0.0 && x0 == 1.0 && x1 == - rn / rb * (1.0 + d) && x2 == rnn / rb * d
    requires x0 * yb + x1 * yn + x2 * ynn == 0.0
    ensures rb * yb - rn * yn == d * (rn * yn - rnn * ynn)
  {
    assert rb * x1 == - rn * (1.0 + d);
    assert rb * x2 == rnn * d;
    assert rb * yb + (rb * x1) * yn + (rb * x2) * ynn == 0.0;
  }

  /** Inner "const_grad" on the grid: the step of r * Sigma across the first
      interval is `Di` times the step across the second. */
  lemma InnerConstGradRelation(g: Grid, x0: real, x1: real, x2: real, y: seq<real>)
    requires g.Valid() && g.r[0] != 0.0 && g.ri[2] != 0.0 && g.r[2] != g.r[0] && |y| == g.N()
    requires x0 == 1.0 && x1 == InnerK1(g) && x2 == InnerK2(g)
    requires x0 * y[0] + x1 * y[1] + x2 * y[2] == 0.0
    ensures g.r[0] * y[0] - g.r[1] * y[1] == InnerDi(g) * (g.r[1] * y[1] - g.r[2] * y[2])
  {
    assert g.r[0] * y[0] - g.r[1] * y[1] == InnerDi(g) * (g.r[1] * y[1] - g.r[2] * y[2]) by {
      ConstGradAlgebra(g.r[0], g.r[1], g.r[2], InnerDi(g), x0, x1, x2, y[0], y[1], y[2]);
    }
  }

  /** Outer "const_grad" on the grid: the step across the last interval is `Do`
      times the step across the one before. */
  lemma OuterConstGradRelation(g: Grid, x0: real, x1: real, x2: real, y: seq<real>)
    requires g.Valid() && g.r[g.N() - 1] != 0.0 && g.ri[g.N() - 2] != 0.0 && g.r[g.N() - 2] != g.r[g.N() - 3]
    requires |y| == g.N()
    requires x0 == 1.0 && x1 == OuterKNrm2(g) && x2 == OuterKNrm3(g)
    requires x0 * y[g.N() - 1] + x1 * y[g.N() - 2] + x2 * y[g.N() - 3] == 0.0
    ensures var n := g.N();
      g.r[n - 1] * y[n - 1] - g.r[n - 2] * y[n - 2] == OuterDo(g) * (g.r[n - 2] * y[n - 2] - g.r[n - 3] * y[n - 3])
  {
    var n := g.N();
    assert g.r[n - 1] * y[n - 1] - g.r[n - 2] * y[n - 2] == OuterDo(g) * (g.r[n - 2] * y[n - 2] - g.r[n - 3] * y[n - 3]) by {
      ConstGradAlgebra(g.r[n - 1], g.r[n - 2], g.r[n - 3], OuterDo(g), x0, x1, x2, y[n - 1], y[n - 2], y[n - 3]);
    }
  }

  /** An interior row: the implicit Euler balance of cell `i`. */
  lemma InteriorAlgebra(dt: real, l: real, d: real, u: real, yl: real, yd: real, yu: real, rhs: real)
    requires (- dt * l) * yl + (1.0 - dt * d) * yd + (- dt * u) * yu == rhs
    ensures yd - dt * (l * yl + d * yd + u * yu) == rhs
  {
  }

  /** Row 0 of the system as an equation in the first three cells. */
  ghost predicate InnerEquation(c: Option<Condition>, b: Bands, g: Grid, dt: real, sigma: seq<real>, y: seq<real>)
    requires g.Valid() && b.Fits(g.N()) && InnerDefined(c, g, dt) && |sigma| == g.N() && |y| == g.N()
  {
    var x := InnerCoefficients(c, b, g, dt);
    HeadBalance(y, x.0, x.1, x.2, InnerRhs(c, sigma[0], g))
  }

  /** Row N-1 of the system as an equation in the last three cells. */
  ghost predicate OuterEquation(c: Option<Condition>, b: Bands, g: Grid, dt: real, sigma: seq<real>, y: seq<real>)
    requires g.Valid() && b.Fits(g.N()) && OuterDefined(c, g, dt) && |sigma| == g.N() && |y| == g.N()
  {
    var x := OuterCoefficients(c, b, g, dt);
    TailBalance(y, x.0, x.1, x.2, OuterRhs(c, sigma[g.N() - 1], g))
  }

  /** Inner boundary `None`: row 0 is the implicit Euler balance of cell 0. */
  lemma InnerNoneCase(c: Option<Condition>, b: Bands, g: Grid, dt: real, sigma: seq<real>, y: seq<real>)
    requires c == None && g.Valid() && b.Fits(g.N()) && InnerDefined(c, g, dt) && |sigma| == g.N() && |y| == g.N()
    requires InnerEquation(c, b, g, dt, sigma, y)
    ensures InnerRelation(c, b, g, dt, sigma, y)
  {
    var x := InnerCoefficients(c, b, g, dt);
    NoneAlgebra(dt, b.diag[0], b.upper[0], x.0, x.1, x.2, y[0], y[1], y[2], sigma[0]);
  }

  /** Inner "val": cell 0 minus `dt C[0]` times cell 1 is the value. */
  lemma InnerValCase(c: Option<Condition>, v: real, b: Bands, g: Grid, dt: real, sigma: seq<real>, y: seq<real>)
    requires c == Some(Val(v)) && g.Valid() && b.Fits(g.N()) && InnerDefined(c, g, dt) && |sigma| == g.N() && |y| == g.N()
    requires InnerEquation(c, b, g, dt, sigma, y)
    ensures InnerRelation(c, b, g, dt, sigma, y)
  {
    var x := InnerCoefficients(c, b, g, dt);
    ValAlgebra(dt, b.upper[0], x.0, x.1, x.2, y[0], y[1], y[2], v);
  }

  /** Inner "const_val": cell 0 equals cell 1. */
  lemma InnerConstValCase(c: Option<Condition>, b: Bands, g: Grid, dt: real, sigma: seq<real>, y: seq<real>)
    requires c == Some(ConstVal) && g.Valid() && b.Fits(g.N()) && InnerDefined(c, g, dt) && |sigma| == g.N() && |y| == g.N()
    requires InnerEquation(c, b, g, dt, sigma, y)
    ensures InnerRelation(c, b, g, dt, sigma, y)
  {
    var x := InnerCoefficients(c, b, g, dt);
    ConstValAlgebra(x.0, x.1, x.2, y[0], y[1], y[2]);
  }

  /** Inner "grad": the step of r * Sigma across the first interval is `ri[1] (r[1] - r[0]) v`. */
  lemma InnerGradCase(c: Option<Condition>, v: real, b: Bands, g: Grid, dt: real, sigma: seq<real>, y: seq<real>)
    requires c == Some(Grad(v)) && g.Valid() && b.Fits(g.N()) && InnerDefined(c, g, dt) && |sigma| == g.N() && |y| == g.N()
    requires InnerEquation(c, b, g, dt, sigma, y)
    ensures InnerRelation(c, b, g, dt, sigma, y)
  {
    var x := InnerCoefficients(c, b, g, dt);
    InnerGradAlgebra(g.r[0], g.r[1], g.ri[1], v, x.0, x.1, x.2, y[0], y[1], y[2]);
  }

  /** Inner "const_grad": the first step of r * Sigma is `Di` times the second. */
  lemma InnerConstGradCase(c: Option<Condition>, b: Bands, g: Grid, dt: real, sigma: seq<real>, y: seq<real>)
    requires c == Some(ConstGrad) && g.Valid() && b.Fits(g.N()) && InnerDefined(c, g, dt) && |sigma| == g.N() && |y| == g.N()
    requires InnerEquation(c, b, g, dt, sigma, y)
    ensures InnerRelation(c, b, g, dt, sigma, y)
  {
    var x := InnerCoefficients(c, b, g, dt);
    InnerConstGradRelation(g, x.0, x.1, x.2, y);
  }

  /** Outer boundary `None`: row N-1 is the implicit Euler balance of cell N-1. */
  lemma OuterNoneCase(c: Option<Condition>, b: Bands, g: Grid, dt: real, sigma: seq<real>, y: seq<real>)
    requires c == None && g.Valid() && b.Fits(g.N()) && OuterDefined(c, g, dt) && |sigma| == g.N() && |y| == g.N()
    requires OuterEquation(c, b, g, dt, sigma, y)
    ensures OuterRelation(c, b, g, dt, sigma, y)
  {
    var n, x := g.N(), OuterCoefficients(c, b, g, dt);
    NoneAlgebra(dt, b.diag[n - 1], b.lower[n - 1], x.0, x.1, x.2, y[n - 1], y[n - 2], y[n - 3], sigma[n - 1]);
  }

  /** Outer "val": cell N-1 minus `dt A[N-1]` times cell N-2 is the value. */
  lemma OuterValCase(c: Option<Condition>, v: real, b: Bands, g: Grid, dt: real, sigma: seq<real>, y: seq<real>)
    requires c == Some(Val(v)) && g.Valid() && b.Fits(g.N()) && OuterDefined(c, g, dt) && |sigma| == g.N() && |y| == g.N()
    requires OuterEquation(c, b, g, dt, sigma, y)
    ensures OuterRelation(c, b, g, dt, sigma, y)
  {
    var n, x := g.N(), OuterCoefficients(c, b, g, dt);
    ValAlgebra(dt, b.lower[n - 1], x.0, x.1, x.2, y[n - 1], y[n - 2], y[n - 3], v);
  }

  /** Outer "const_val": cell N-1 equals cell N-2. */
  lemma OuterConstValCase(c: Option<Condition>, b: Bands, g: Grid, dt: real, sigma: seq<real>, y: seq<real>)
    requires c == Some(ConstVal) && g.Valid() && b.Fits(g.N()) && OuterDefined(c, g, dt) && |sigma| == g.N() && |y| == g.N()
    requires OuterEquation(c, b, g, dt, sigma, y)
    ensures OuterRelation(c, b, g, dt, sigma, y)
  {
    var n, x := g.N(), OuterCoefficients(c, b, g, dt);
    ConstValAlgebra(x.0, x.1, x.2, y[n - 1], y[n - 2], y[n - 3]);
  }

  /** Outer "grad": the step of r * Sigma across the last interval is `ri[N-1] (r[N-1] - r[N-2]) v`. */
  lemma OuterGradCase(c: Option<Condition>, v: real, b: Bands, g: Grid, dt: real, sigma: seq<real>, y: seq<real>)
    requires c == Some(Grad(v)) && g.Valid() && b.Fits(g.N()) && OuterDefined(c, g, dt) && |sigma| == g.N() && |y| == g.N()
    requires OuterEquation(c, b, g, dt, sigma, y)
    ensures OuterRelation(c, b, g, dt, sigma, y)
  {
    var n, x := g.N(), OuterCoefficients(c, b, g, dt);
    OuterGradAlgebra(g.r[n - 1], g.r[n - 2], g.ri[n - 1], v, x.0, x.1, x.2, y[n - 1], y[n - 2], y[n - 3]);
  }

  /** Outer "const_grad": the last step of r * Sigma is `Do` times the one before. */
  lemma OuterConstGradCase(c: Option<Condition>, b: Bands, g: Grid, dt: real, sigma: seq<real>, y: seq<real>)
    requires c == Some(ConstGrad) && g.Valid() && b.Fits(g.N()) && OuterDefined(c, g, dt) && |sigma| == g.N() && |y| == g.N()
    requires OuterEquation(c, b, g, dt, sigma, y)
    ensures OuterRelation(c, b, g, dt, sigma, y)
  {
    var n, x := g.N(), OuterCoefficients(c, b, g, dt);
    OuterConstGradRelation(g, x.0, x.1, x.2, y);
  }

  /** The inner relation is what the equation of row 0 says. */
  lemma InnerRelationFromEquation(c: Option<Condition>, b: Bands, g: Grid, dt: real, sigma: seq<real>, y: seq<real>)
    requires g.Valid() && b.Fits(g.N()) && InnerDefined(c, g, dt) && |sigma| == g.N() && |y| == g.N()
    requires InnerEquation(c, b, g, dt, sigma, y)
    ensures InnerRelation(c, b, g, dt, sigma, y)
  {
    match c {
      case None => InnerNoneCase(c, b, g, dt, sigma, y);
      case Some(Val(v)) => InnerValCase(c, v, b, g, dt, sigma, y);
      case Some(ConstVal) => InnerConstValCase(c, b, g, dt, sigma, y);
      case Some(Grad(v)) => InnerGradCase(c, v, b, g, dt, sigma, y);
      case Some(ConstGrad) => InnerConstGradCase(c, b, g, dt, sigma, y);
    }
  }

  /** The outer relation is what the equation of row N-1 says. */
  lemma OuterRelationFromEquation(c: Option<Condition>, b: Bands, g: Grid, dt: real, sigma: seq<real>, y: seq<real>)
    requires g.Valid() && b.Fits(g.N()) && OuterDefined(c, g, dt) && |sigma| == g.N() && |y| == g.N()
    requires OuterEquation(c, b, g, dt, sigma, y)
    ensures OuterRelation(c, b, g, dt, sigma, y)
  {
    match c {
      case None => OuterNoneCase(c, b, g, dt, sigma, y);
      case Some(Val(v)) => OuterValCase(c, v, b, g, dt, sigma, y);
      case Some(ConstVal) => OuterConstValCase(c, b, g, dt, sigma, y);
      case Some(Grad(v)) => OuterGradCase(c, v, b, g, dt, sigma, y);
      case Some(ConstGrad) => OuterConstGradCase(c, b, g, dt, sigma, y);
    }
  }

  /** Row 0 of a solved system `M y == r` whose first row is `x0, x1, x2, 0, ..., 0`. */
  lemma HeadRowSolved(M: seq<seq<real>>, y: seq<real>, r: seq<real>, n: nat, x0: real, x1: real, x2: real, rhs: real)
    requires |M| == |y| == n >= 3 && Rows(M, n) && MatVec(M, y) == r
    requires M[0] == HeadRow(n, x0, x1, x2) && r[0] == rhs
    ensures HeadBalance(y, x0, x1, x2, rhs)
  {
    assert Dot(M[0], y) == r[0];
    HeadEquation(y, n, x0, x1, x2, rhs);
  }

  /** Row N-1 of a solved system whose last row is `0, ..., 0, x2, x1, x0`. */
  lemma TailRowSolved(M: seq<seq<real>>, y: seq<real>, r: seq<real>, n: nat, x0: real, x1: real, x2: real, rhs: real)
    requires |M| == |y| == n >= 3 && Rows(M, n) && MatVec(M, y) == r
    requires M[n - 1] == TailRow(n, x0, x1, x2) && r[n - 1] == rhs
    ensures TailBalance(y, x0, x1, x2, rhs)
  {
    assert Dot(M[n - 1], y) == r[n - 1];
    TailEquation(y, n, x0, x1, x2, rhs);
  }

  /** Row `i` of a solved system whose row `i` holds `xl, xd, xu` around the diagonal. */
  lemma MidRowSolved(M: seq<seq<real>>, y: seq<real>, r: seq<real>, n: nat, i: nat,
                     xl: real, xd: real, xu: real, rhs: real)
    requires |M| == |y| == n && 1 <= i < n - 1 && Rows(M, n) && MatVec(M, y) == r
    requires M[i] == MidRow(n, i, xl, xd, xu) && r[i] == rhs
    ensures xl * y[i - 1] + xd * y[i] + xu * y[i + 1] == rhs
  {
    assert Dot(M[i], y) == r[i];
    MidEquation(y, n, i, xl, xd, xu, rhs);
  }

  /** Row 0 of the implicit system: its matrix row and its right-hand side. */
  lemma InnerSystem(b: Bands, g: Grid, dt: real, inner: Option<Condition>, outer: Option<Condition>,
                    sigma: seq<real>, sExt: seq<real>)
    requires Setup(b, g, dt, inner, outer) && |sigma| == g.N() && |sExt| == g.N()
    ensures var x := InnerCoefficients(inner, b, g, dt);
      ImplicitMatrix(JacobianMatrix(b, g, dt, inner, outer), dt)[0] == HeadRow(g.N(), x.0, x.1, x.2)
    ensures WithSource(RhsVector(sigma, g, inner, outer), dt, sExt)[0] == InnerRhs(inner, sigma[0], g)
  {
    InnerSystemRowClosedForm(b, g, dt, inner, outer);
    SystemRhs(sigma, sExt, g, dt, inner, outer);
  }

  /** Row N-1 of the implicit system: its matrix row and its right-hand side. */
  lemma OuterSystem(b: Bands, g: Grid, dt: real, inner: Option<Condition>, outer: Option<Condition>,
                    sigma: seq<real>, sExt: seq<real>)
    requires Setup(b, g, dt, inner, outer) && |sigma| == g.N() && |sExt| == g.N()
    ensures var x := OuterCoefficients(outer, b, g, dt);
      ImplicitMatrix(JacobianMatrix(b, g, dt, inner, outer), dt)[g.N() - 1] == TailRow(g.N(), x.0, x.1, x.2)
    ensures WithSource(RhsVector(sigma, g, inner, outer), dt, sExt)[g.N() - 1] == OuterRhs(outer, sigma[g.N() - 1], g)
  {
    OuterSystemRowClosedForm(b, g, dt, inner, outer);
    SystemRhs(sigma, sExt, g, dt, inner, outer);
  }

  /** Row `i` of the implicit system: its matrix row and its right-hand side. */
  lemma InteriorSystem(b: Bands, g: Grid, dt: real, inner: Option<Condition>, outer: Option<Condition>,
                       sigma: seq<real>, sExt: seq<real>, i: nat)
    requires Setup(b, g, dt, inner, outer) && |sigma| == g.N() && |sExt| == g.N() && 1 <= i < g.N() - 1
    ensures ImplicitMatrix(JacobianMatrix(b, g, dt, inner, outer), dt)[i]
            == MidRow(g.N(), i, - dt * b.lower[i], 1.0 - dt * b.diag[i], - dt * b.upper[i])
    ensures WithSource(RhsVector(sigma, g, inner, outer), dt, sExt)[i] == sigma[i] + dt * sExt[i]
  {
    InteriorSystemRowClosedForm(b, g, dt, inner, outer, i);
    SystemRhs(sigma, sExt, g, dt, inner, outer);
  }

  /** Row 0 of the solved system, written out. */
  lemma InnerRowEquation(b: Bands, g: Grid, dt: real, inner: Option<Condition>, outer: Option<Condition>,
                         sigma: seq<real>, sExt: seq<real>, y: seq<real>)
    requires Setup(b, g, dt, inner, outer) && |sigma| == g.N() && |sExt| == g.N() && |y| == g.N()
    requires Solves(b, g, dt, inner, outer, sigma, sExt, y)
    ensures InnerEquation(inner, b, g, dt, sigma, y)
  {
    var x := InnerCoefficients(inner, b, g, dt);
    var M := ImplicitMatrix(JacobianMatrix(b, g, dt, inner, outer), dt);
    var r := WithSource(RhsVector(sigma, g, inner, outer), dt, sExt);
    InnerSystem(b, g, dt, inner, outer, sigma, sExt);
    HeadRowSolved(M, y, r, g.N(), x.0, x.1, x.2, InnerRhs(inner, sigma[0], g));
  }

  /** Row N-1 of the solved system, written out. */
  lemma OuterRowEquation(b: Bands, g: Grid, dt: real, inner: Option<Condition>, outer: Option<Condition>,
                         sigma: seq<real>, sExt: seq<real>, y: seq<real>)
    requires Setup(b, g, dt, inner, outer) && |sigma| == g.N() && |sExt| == g.N() && |y| == g.N()
    requires Solves(b, g, dt, inner, outer, sigma, sExt, y)
    ensures OuterEquation(outer, b, g, dt, sigma, y)
  {
    var x := OuterCoefficients(outer, b, g, dt);
    var M := ImplicitMatrix(JacobianMatrix(b, g, dt, inner, outer), dt);
    var r := WithSource(RhsVector(sigma, g, inner, outer), dt, sExt);
    OuterSystem(b, g, dt, inner, outer, sigma, sExt);
    TailRowSolved(M, y, r, g.N(), x.0, x.1, x.2, OuterRhs(outer, sigma[g.N() - 1], g));
  }

  /** Every solution of the step meets the inner boundary relation, whatever
      the sources and, for "const_val", "grad" and "const_grad", whatever `dt`. */
  lemma InnerBoundaryHolds(b: Bands, g: Grid, dt: real, inner: Option<Condition>, outer: Option<Condition>,
                           sigma: seq<real>, sExt: seq<real>, y: seq<real>)
    requires Setup(b, g, dt, inner, outer) && |sigma| == g.N() && |sExt| == g.N() && |y| == g.N()
    requires Solves(b, g, dt, inner, outer, sigma, sExt, y)
    ensures InnerRelation(inner, b, g, dt, sigma, y)
  {
    InnerRowEquation(b, g, dt, inner, outer, sigma, sExt, y);
    InnerRelationFromEquation(inner, b, g, dt, sigma, y);
  }

  /** Every solution of the step meets the outer boundary relation. */
  lemma OuterBoundaryHolds(b: Bands, g: Grid, dt: real, inner: Option<Condition>, outer: Option<Condition>,
                           sigma: seq<real>, sExt: seq<real>, y: seq<real>)
    requires Setup(b, g, dt, inner, outer) && |sigma| == g.N() && |sExt| == g.N() && |y| == g.N()
    requires Solves(b, g, dt, inner, outer, sigma, sExt, y)
    ensures OuterRelation(outer, b, g, dt, sigma, y)
  {
    OuterRowEquation(b, g, dt, inner, outer, sigma, sExt, y);
    OuterRelationFromEquation(outer, b, g, dt, sigma, y);
  }

  /** Row `i` of the solved system, written out. */
  lemma InteriorRowEquation(b: Bands, g: Grid, dt: real, inner: Option<Condition>, outer: Option<Condition>,
                            sigma: seq<real>, sExt: seq<real>, y: seq<real>, i: nat)
    requires Setup(b, g, dt, inner, outer) && |sigma| == g.N() && |sExt| == g.N() && |y| == g.N()
    requires Solves(b, g, dt, inner, outer, sigma, sExt, y)
    requires 1 <= i < g.N() - 1
    ensures (- dt * b.lower[i]) * y[i - 1] + (1.0 - dt * b.diag[i]) * y[i] + (- dt * b.upper[i]) * y[i + 1]
            == sigma[i] + dt * sExt[i]
  {
    InteriorSystem(b, g, dt, inner, outer, sigma, sExt, i);
    MidRowSolved(ImplicitMatrix(JacobianMatrix(b, g, dt, inner, outer), dt), y,
                 WithSource(RhsVector(sigma, g, inner, outer), dt, sExt), g.N(), i,
                 - dt * b.lower[i], 1.0 - dt * b.diag[i], - dt * b.upper[i], sigma[i] + dt * sExt[i]);
  }

  /** Every solution of the step satisfies the implicit Euler balance in each
      interior cell, with the external source added. */
  lemma InteriorBalanceHolds(b: Bands, g: Grid, dt: real, inner: Option<Condition>, outer: Option<Condition>,
                             sigma: seq<real>, sExt: seq<real>, y: seq<real>, i: nat)
    requires Setup(b, g, dt, inner, outer) && |sigma| == g.N() && |sExt| == g.N() && |y| == g.N()
    requires Solves(b, g, dt, inner, outer, sigma, sExt, y)
    requires 1 <= i < g.N() - 1
    ensures y[i] - dt * (b.lower[i] * y[i - 1] + b.diag[i] * y[i] + b.upper[i] * y[i + 1])
            == sigma[i] + dt * sExt[i]
  {
    InteriorRowEquation(b, g, dt, inner, outer, sigma, sExt, y, i);
    InteriorAlgebra(dt, b.lower[i], b.diag[i], b.upper[i], y[i - 1], y[i], y[i + 1], sigma[i] + dt * sExt[i]);
  }

  /** The step as the integrator runs it leaves a new surface density that
      satisfies both boundary relations. */
  lemma GasStepMeetsBoundaries(b: Bands, g: Grid, dt: real, inner: Option<Condition>, outer: Option<Condition>,
                               sigma: seq<real>, sExt: seq<real>, dY: seq<real>)
    requires Setup(b, g, dt, inner, outer) && |sigma| == g.N() && |sExt| == g.N() && |dY| == g.N()
    requires MatVec(ImplicitMatrix(JacobianMatrix(b, g, dt, inner, outer), dt), Add(sigma, dY))
             == WithSource(RhsVector(sigma, g, inner, outer), dt, sExt)
    ensures InnerRelation(inner, b, g, dt, sigma, Add(sigma, dY))
    ensures OuterRelation(outer, b, g, dt, sigma, Add(sigma, dY))
  {
    InnerBoundaryHolds(b, g, dt, inner, outer, sigma, sExt, Add(sigma, dY));
    OuterBoundaryHolds(b, g, dt, inner, outer, sigma, sExt, Add(sigma, dY));
  }

  // ---------------------------------------------------------------------
  // Floor value
  // ---------------------------------------------------------------------

  /** After the clamp every entry is at least the floor, entries already at or
      above it are unchanged, and clamping twice is clamping once. */
  lemma FlooredProperties(sigma: seq<real>, floor: seq<real>)
    requires |floor| == |sigma|
    ensures forall i :: 0 <= i < |sigma| ==> Floored(sigma, floor)[i] >= floor[i]
    ensures forall i :: 0 <= i < |sigma| && sigma[i] >= floor[i] ==> Floored(sigma, floor)[i] == sigma[i]
    ensures forall i :: 0 <= i < |sigma| && sigma[i] < floor[i] ==> Floored(sigma, floor)[i] == floor[i]
    ensures Floored(Floored(sigma, floor), floor) == Floored(sigma, floor)
  {
  }
}
