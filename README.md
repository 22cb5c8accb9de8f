# Implicit gas step of dustpy

This project models how dustpy advances the gas surface density `Sigma` by one
implicit step (`dustpy/std/gas.py`), and proves properties of that model.

The step has four parts:

- **Assembly.** `jacobian` places the three coefficient vectors `A, B, C` of
  the viscous-evolution kernel on the sub-, main and super-diagonal of an
  `N x N` matrix `jac`.
- **Boundary overrides.** `jacobian` copies `Sigma` into the buffer `_rhs`.
  It then overwrites row 0 and row `N-1` of `jac`, and entries 0 and `N-1` of
  `_rhs`, according to the boundary condition at each edge: `val`,
  `const_val`, `grad`, `const_grad`, or none.
- **Solve.** `_f_impl_1_euler_direct` adds `dx * S_ext` to the interior
  entries of the buffer. It solves `(I - dx jac) Y1 = rhs` and returns
  `Y1 - Y0`.
- **Floor.** `enforce_floor_value` clamps `Sigma` from below by `SigmaFloor`,
  in place.

The model has three modules:

- `LinAlg` (`linalg.dfy`) holds dense vectors and matrices over `real`:
  inner products, products, numpy's `diag`, and the fact that a right inverse
  solves a linear system.
- `Gas` (`gas.dfy`) holds the data model, the boundary coefficients and the
  specification functions. It also holds the in-place operations as methods:
  on an `array2<real>` for `jac`, and on an `array<real>` for `_rhs` and
  `Sigma`.
- `GasProperties` (`gas_properties.dfy`) holds the lemmas. They cover:
  - the band structure of the assembled matrix;
  - which rows the boundary handling touches;
  - the closed form of the rows of `I - dt J`, including the cancellation of
    the `1/dt` that the boundary handling writes into `jac`;
  - the relation that every solution of the step satisfies at each boundary
    and in each interior cell;
  - the floor clamp.

The float64 arithmetic of the source is modelled as exact `real` arithmetic.

## Model

| member | source | states |
|---|---|---|
| Gas.Jacobian | dustpy/std/gas.py:116-219 | Returns a fresh `N x N` array. Its contents are the assembled band with row 0 and row `N-1` overridden by the two boundary conditions. `_rhs` ends up as `Sigma`, with entries 0 and `N-1` overridden. |
| Gas.ApplyInner | dustpy/std/gas.py:136-162 | Changes only row 0 of `jac` and `_rhs[0]`. `None` keeps both. `val` zeroes `jac[0,0]` and stores the value. `const_val` writes `0, 1/dt` with rhs 0. `grad` writes `0, -K1/dt` with rhs `-ri[1]/r[0] (r[1]-r[0]) v`. `const_grad` writes `0, -K1/dt, -K2/dt` with rhs 0. |
| Gas.ApplyOuter | dustpy/std/gas.py:177-204 | Does the same on row `N-1` and `_rhs[N-1]`, at columns `N-1`, `N-2` and `N-3`. |
| Gas.ImplicitEulerDirect | dustpy/std/gas.py:473-481 | Adds `dx S_ext[i]` to `rhs[i]`, for `1 <= i <= N-2` only. Given the inverse of `I - dx jac`, the returned `dY` has length `N` and satisfies `(I - dx jac)(Y0 + dY) == rhs`. |
| Gas.ImplicitGasStep | dustpy/std/gas.py:468-481 | `jacobian` followed by the solve: `Sigma + dY` solves the system built from the band and both boundary conditions, and the buffer holds its right-hand side. |
| Gas.EnforceFloorValue | dustpy/std/gas.py:30 | `Sigma` becomes the elementwise maximum of its old value and the floor, in place. |
| Gas.Assembled | dustpy/std/gas.py:129 | `diag(A[1:], -1) + diag(B) + diag(C[:-1], 1)` is a square `N x N` matrix. GasProperties.AssembledBand states its entries. |
| GasProperties.InnerGradCoefficient | dustpy/std/gas.py:149 | `K1 = -r[1]/r[0]`: a profile with constant `r Sigma` (`Sigma = 1/r`) satisfies the inner `grad` row with zero gradient. |
| GasProperties.InnerConstGradCoefficients | dustpy/std/gas.py:156-158 | `Di = ri[1]/ri[2] (r[1]-r[0])/(r[2]-r[0])`, `K1 = -r[1]/r[0] (1+Di)`, `K2 = r[2]/r[0] Di`. `K1` is the `grad` coefficient times `1 + Di`. `Sigma = 1/r` satisfies `Sigma[0] + K1 Sigma[1] + K2 Sigma[2] == 0`. |
| GasProperties.InnerDiBounds | dustpy/std/gas.py:156 | On a grid whose first centres and interfaces increase, `0 < Di < 1`. |
| GasProperties.OuterGradCoefficient | dustpy/std/gas.py:191 | `KNrm2 = -r[N-2]/r[N-1]`: `Sigma = 1/r` satisfies the outer `grad` row with zero gradient. |
| GasProperties.OuterConstGradCoefficients | dustpy/std/gas.py:198-200 | `Do = ri[N-1]/ri[N-2] (r[N-1]-r[N-2])/(r[N-2]-r[N-3])`, `KNrm2 = -r[N-2]/r[N-1] (1+Do)`, `KNrm3 = r[N-3]/r[N-1] Do`. `KNrm2` is the `grad` coefficient times `1 + Do`. `Sigma = 1/r` satisfies `Sigma[N-1] + KNrm2 Sigma[N-2] + KNrm3 Sigma[N-3] == 0`. |
| GasProperties.OuterDoBounds | dustpy/std/gas.py:198 | On a grid whose last centres and interfaces increase, `Do > 0`. Its interface factor `ri[N-1]/ri[N-2]` is above 1 there, so `Do` has no bound of 1 like `Di`. |
| GasProperties.AssembledBand | dustpy/std/gas.py:128-129 | Entry `(i,j)` of the assembled matrix is `B[i]` on the diagonal, `A[i]` at `j = i-1`, `C[i]` at `j = i+1`, and zero whenever `abs(i-j) > 1`. |
| GasProperties.AssembledIgnoresEnds | dustpy/std/gas.py:129 | Changing `A[0]` or `C[N-1]` does not change the assembled matrix. |
| GasProperties.InteriorRowsUntouched | dustpy/std/gas.py:134-204 | Rows `1..N-2` of `jac` stay as assembled, and entries `1..N-2` of `_rhs` equal `Sigma`. |
| GasProperties.AbsentBoundaryKeepsRow | dustpy/std/gas.py:134-179 | A boundary that is `None` keeps its assembled row of `jac` and its `Sigma` entry of `_rhs`. |
| GasProperties.ValKeepsNeighbour | dustpy/std/gas.py:139-183 | `val` leaves its row as `[0, C[0], 0, ...]` (outer: `[0, ..., 0, A[N-1], 0]`), with the value in `_rhs`: the neighbour entry survives. |
| GasProperties.InnerSystemRowClosedForm | dustpy/std/gas.py:137-162 | Row 0 of `I - dt J` is `[x0, x1, x2, 0, ...]`. The coefficients are `1-dt B[0], -dt C[0], 0` for `None`; `1, -dt C[0], 0` for `val`; `1, -1, 0` for `const_val`; `1, K1, 0` for `grad`; and `1, K1, K2` for `const_grad`. The `1/dt` cancels. |
| GasProperties.OuterSystemRowClosedForm | dustpy/std/gas.py:179-204 | Row `N-1` of `I - dt J` is zero except at columns `N-1, N-2, N-3`. There it holds `1-dt B[N-1], -dt A[N-1], 0` for `None`; `1, -dt A[N-1], 0` for `val`; `1, -1, 0` for `const_val`; `1, KNrm2, 0` for `grad`; and `1, KNrm2, KNrm3` for `const_grad`. The `1/dt` cancels. |
| GasProperties.InteriorSystemRowClosedForm | dustpy/std/gas.py:476-478 | Row `i` of `I - dt J`, for `1 <= i <= N-2`, is `-dt A[i], 1 - dt B[i], -dt C[i]` around the diagonal and zero elsewhere. |
| GasProperties.BoundaryRowsIndependentOfDt | dustpy/std/gas.py:143-204 | For `const_val`, `grad` and `const_grad`, the boundary row of `I - dt J` is the same for any two non-zero step sizes. |
| GasProperties.SourceSkipsBoundaries | dustpy/std/gas.py:474 | Adding sources leaves `rhs[0]` and `rhs[N-1]` unchanged. `S_ext[0]` and `S_ext[N-1]` have no effect. |
| GasProperties.SystemRhs | dustpy/std/gas.py:473-474 | The solved right-hand side is the inner boundary value at 0, the outer boundary value at `N-1`, and `Sigma[i] + dt S_ext[i]` in between. |
| GasProperties.InnerNoneCase | dustpy/std/gas.py:137 | With no inner condition, row 0 is the implicit Euler balance `Y[0] - dt (B[0] Y[0] + C[0] Y[1]) == Sigma[0]`. |
| GasProperties.InnerValCase | dustpy/std/gas.py:139-141 | Inner `val`: `Y[0] - dt C[0] Y[1] == value`. |
| GasProperties.InnerConstValCase | dustpy/std/gas.py:143-146 | Inner `const_val`: `Y[0] == Y[1]`. |
| GasProperties.InnerGradCase | dustpy/std/gas.py:148-153 | Inner `grad`: `r[1] Y[1] - r[0] Y[0] == ri[1] (r[1]-r[0]) value`. |
| GasProperties.InnerConstGradCase | dustpy/std/gas.py:155-162 | Inner `const_grad`: `r[0] Y[0] - r[1] Y[1] == Di (r[1] Y[1] - r[2] Y[2])`. |
| GasProperties.OuterNoneCase | dustpy/std/gas.py:179 | With no outer condition, row `N-1` is the implicit Euler balance of the last cell. |
| GasProperties.OuterValCase | dustpy/std/gas.py:181-183 | Outer `val`: `Y[N-1] - dt A[N-1] Y[N-2] == value`. |
| GasProperties.OuterConstValCase | dustpy/std/gas.py:185-188 | Outer `const_val`: `Y[N-1] == Y[N-2]`. |
| GasProperties.OuterGradCase | dustpy/std/gas.py:190-195 | Outer `grad`: `r[N-1] Y[N-1] - r[N-2] Y[N-2] == ri[N-1] (r[N-1]-r[N-2]) value`. |
| GasProperties.OuterConstGradCase | dustpy/std/gas.py:197-204 | Outer `const_grad`: `r[N-1] Y[N-1] - r[N-2] Y[N-2] == Do (r[N-2] Y[N-2] - r[N-3] Y[N-3])`. |
| GasProperties.InnerBoundaryHolds | dustpy/std/gas.py:136-162 | Every solution of the implicit system meets the inner boundary relation of its condition. |
| GasProperties.OuterBoundaryHolds | dustpy/std/gas.py:177-204 | Every solution of the implicit system meets the outer boundary relation of its condition. |
| GasProperties.InteriorBalanceHolds | dustpy/std/gas.py:474-481 | Every solution satisfies `Y[i] - dt (A[i] Y[i-1] + B[i] Y[i] + C[i] Y[i+1]) == Sigma[i] + dt S_ext[i]` in each interior cell. |
| GasProperties.GasStepMeetsBoundaries | dustpy/std/gas.py:468-481 | `Sigma + dY`, as returned by the step, meets both boundary relations. |
| GasProperties.FlooredProperties | dustpy/std/gas.py:30 | After the clamp: every entry is at least its floor; entries at or above the floor are unchanged; entries below it become the floor; clamping twice equals clamping once. |
| LinAlg.SolveByRightInverse | dustpy/std/gas.py:479 | If `A P == I`, then `x := P b` satisfies `A x == b`. This is what `inv(A) @ rhs` delivers. |

## Left out

- The `pow` and `const_pow` conditions (dustpy/std/gas.py:164-175, 206-217) are left out. They need logarithms and real powers, which have no exact counterpart over `real`. The inner `const_pow` reads the outer radii `r[-1]/r[-2]` (line 172); this is not reproduced either.
- The Fortran kernel `gas_f.jac_abc` is not part of this model. Its output `A, B, C` is the input `Bands`.
- `nu`, `v`, `sim.dust.backreaction` and the other physics formulas of the file (sound speed, scale height, midplane quantities, the Lynden-Bell & Pringle profile) are left out. They are floating-point one-liners with no index structure.
- The simframe wiring is left out: `boundary()`/`setboundary()`, `finalize`, the updaters of the fluxes and sources, and the `Scheme` registration (line 484).
- `np.linalg.inv` is modelled by its defining equation only. The caller supplies a right inverse of `I - dx jac`. Singular matrices, rounding and conditioning are not modelled.
- Gas.ImplicitEulerDirect: the `rhs is None` default (lines 470-471, a copy of `Y0`) is not modelled. The method always receives the buffer. The `jac is None` path (line 469) is covered by Gas.ImplicitGasStep.
- Gas.ImplicitGasStep: `jacobian` reads its step size from `sim.t.stepsize`, while the solve uses `dx`. The model takes both to be the same `dt`.
- Gas.ApplyInner, Gas.ApplyOuter and Gas.Jacobian add requires that the source does not have:
  - the grid has at least three cells;
  - each division has a non-zero divisor: `r[0]` and `r[N-1]`, `dt` for `const_val`, `grad` and `const_grad`, `r[2]-r[0]` and `ri[2]`, and `r[N-2]-r[N-3]` and `ri[N-2]` (the source's `ri[-3]`).

  Where the source would produce `inf` or `nan`, the model requires the division to be defined.
- A condition string other than the recognised ones leaves the row unchanged in the source, like `None`. `Condition` has no constructor for it, so that case is covered only through `None`.
- Floating-point rounding is not modelled; every value is an exact real.
- Gas.EnforceFloorValue takes one floor value per cell. numpy's broadcast of a single scalar floor is the constant sequence.

The `const_grad` coefficients are not mirror images of each other at the two edges.
At the inner edge, `Di` (dustpy/std/gas.py:156) divides the first interval `r[1]-r[0]` by the two-interval span `r[2]-r[0]`, and takes the interface ratio `ri[1]/ri[2]`.
At the outer edge, `Do` (dustpy/std/gas.py:198) divides the last interval `r[-1]-r[-2]` by the single interval `r[-2]-r[-3]`, and takes the interface ratio `ri[-2]/ri[-3]`.
The model keeps each formula as written.
