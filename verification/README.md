# A verified model of the IML++ solvers and two mesh tools of OOFEM

The project models three parts of OOFEM and proves what they promise.

**The iterative solvers in `iml/`.** CG, BiCG, CGS, BiCGSTAB, QMR, restarted GMRES and Richardson iteration solve
`A x = b` with a preconditioner `M`. The headers are templates over the vector, matrix and preconditioner types, and
so is the model: a `Space` is a record of the operations the templates call (`+`, scaling, `dot`, `norm`), and every
theorem holds for every space whose operations obey the laws of a real inner product. `Euclidean.dfy` shows that
R^n with the sum of products is one, for every n, and that its dimension is n. Scalars are exact reals. The square
root is a parameter, assumed to return the nonnegative root. `M` need not be linear unless a theorem says so; where
the transpose operators are used, they are assumed to be adjoints.

Each solver has a record `Iteration` of everything one pass of its loop computes, two functions (`First` and `Next`)
that give a pass from the one before, and a predicate `Run` for a sequence of passes in which no division is by zero.
The method `Solve` is the loop of the header, with its assignments in place, and is proved against `Run`: its ghost
result is the record of its passes. The theorems are about `Run`, so they hold at every pass of every execution.
An unguarded division by zero ends `Solve` with `DivideByZero`. In the functions a quotient is `Quotient`, which is 0
where the divisor is; the methods divide only where the divisor is proved different from zero.

**`tools/oofem2part.py`** cuts a mesh into partitions. `Partition.dfy` has the classification of the nodes and says
exactly when its single sweep over the slave-master relation reaches the least closure. `PartitionFiles.dfy` has the
files that are written from it.

**`bindings/oofemlib/dream3d_analysis.C`** builds a structured grid from voxels. `PeriodicGrid.dfy` has the node
numbering, the marking of the nodes of one phase, its periodic closure by three sweeps, and the node set that comes
out of it.

What the proofs show beyond the documentation:

- GMRES cannot leave through the return in its outer loop (`iml/gmres.h:125-130`): over the reals the recomputed
  residual equals the estimate that has just failed the same test. The value that return would give `max_iter`, one
  more than the steps taken, is therefore never seen.
- When `max_iter` cuts a cycle short, `Update(x, m - 1, H, s, v)` reads columns the cycle has not computed. The model
  stops there with `StaleColumns`; this happens only if `max_iter` is not a multiple of `m`.
- Within a cycle GMRES stops at the first step at which any vector of x plus the Krylov space passes the convergence
  test.
- In dimension n at most `m` and at most `max_iter`, GMRES converges or divides by a zero `norm(w)` before its n-th
  step is complete. At that point the basis already contains the exact solution, or `M^-1 A` is singular.
- QMR's return codes 3 and 4 are unreachable, and so is code 2 for `tol >= 0` and a nonsingular first preconditioner:
  rho vanishes only with the residual. The breakdown returns leave `tol` and `max_iter` as they were.
- BiCGSTAB's half-step return has code 0 but does not assign `max_iter`, which the header documents as the number of
  iterations upon successful return; `x = 1` from `x = 0` leaves that way with any `max_iter`. Codes 2 and 3 of
  BiCGSTAB and code 2 of CGS do not assign it either; code 2 of BiCG does.
- BiCG, CGS, BiCGSTAB and QMR never get through more than n passes in dimension n, whatever the tolerance, for every
  matrix and preconditioner that have adjoints.
- CGS and BiCGSTAB with a preconditioner are the same methods without one on the right-preconditioned system, and
  relate to BiCG on that system.
- The classification in `tools/oofem2part.py` depends on the numbering of the nodes: a slave of a slave that comes too
  late leaves its partition out of the last master. A slave that lies in no element makes its master shared although
  the master has one partition.
- The first entry of the corner table in `bindings/oofemlib/dream3d_analysis.C:288` is the corner it stands for exactly
  when the grid has as many nodes in x as in z, and stays in the array for all elements exactly when the grid is at most
  one node longer in z than in x. The comment above the sweeps speaks of marking the far faces; the code
  marks the faces at zero and frees the far ones.

## Files

- `Reals`, `VectorSpaces`, `Combinations`, `Euclidean`, `Systems`, `Polynomials`: the mathematics the solvers share.
- `Lanczos`: the two-sided Lanczos recurrence that BiCG and QMR both follow.
- `BiCG`, `CG`, `CGS`, `BiCGSTAB`, `QMR`, `IR`: one solver each.
- `Symmetry` (BiCG and CG), `RightSystem`, `Squaring` (CGS and BiCG), `Smoothing` (BiCGSTAB and BiCG): how the solvers
  are related.
- `QuasiMinimal`: what QMR minimises. `OneDimension`: the real line, and a half-step return of BiCGSTAB on it.
- `Rotations`, `Cycle`, `Krylov`, `Hessenberg`, `GMRES`: plane rotations, the mathematics of one cycle, what its basis
  spans, the arrays, the solver.
- `Partition`, `PartitionFiles`, `PeriodicGrid`: the two mesh tools.

## Model

| member | source | states |
|---|---|---|
| `Euclidean.IsInnerProduct` | iml/cg.h:24-32 | R^n with the operations the templates call satisfies the laws asked of a space, for every n and every square root |
| `Euclidean.HasDimension` | iml/cg.h:24-32 | any n + 1 vectors of R^n are linearly dependent (by Gaussian elimination) |
| `Systems.ResidualMoves` | iml/cg.h:57-58 | moving x by a p moves b - A x by -a A p, for every linear A |
| `Systems.ResidualIs` | iml/cg.h:32 | the residual is b - A x: every functional t gives it the value b . t - A x . t |
| `Systems.ResidualZero` | iml/cg.h:31-38 | the residual, and with it the number the convergence tests compare with tol, is zero if and only if A x = b |
| `Combinations.OrthogonalToAll` | iml/cg.h:43-66 | in dimension n a vector orthogonal to n vectors that a second family tells apart is zero |
| `Lanczos.Biorthogonal` | iml/bicg.h:45-69 | two coupled recurrences with adjoint operators stay biorthogonal over the whole history, residuals and directions, in both orders of the indices |
| `Lanczos.Duality` | iml/bicg.h:45-69 | exchanging the two families and transposing the operators turns a history into a history |
| `Lanczos.Short` | iml/bicg.h:45-69 | in dimension n a history without breakdown has at most n links |
| `BiCG.IsLanczos` | iml/bicg.h:45-69 | the passes of BiCG, residuals rescaled, are a two-sided Lanczos history |
| `BiCG.Biorthogonal` | iml/bicg.h:45-69 | z_i . rtilde_j = 0 and ptilde_i . A p_j = 0 for all i different from j, the pass under way included, before its own denominators are known to be nonzero |
| `BiCG.TrueResidual` | iml/bicg.h:65-66 | the recurrence residual is b - A x at the head of every pass |
| `BiCG.UnconvergedIs` | iml/bicg.h:39-74 | no earlier x had passed the test: its true relative residual was above tol at the first and not below it at any later one |
| `BiCG.FiniteRun` | iml/bicg.h:45-75 | in dimension n the loop completes at most n passes |
| `BiCG.Solve` | iml/bicg.h:23-79 | the loop computes exactly the passes of a run; on codes 0, 1 and 2 the returned tol is the norm of b - A x over normb; each code occurs under its condition only, max_iter is what that exit assigns, and the only other end is a zero denominator of alpha; codes 0 and 1 say how tol compares, and code 2 and the zero denominator occur only where x has failed its test |
| `Symmetry.TransposeIsSelf` | iml/bicg.h:46-47 | the adjoint of a self-adjoint operator is the operator itself |
| `Symmetry.ShadowEqual` | iml/bicg.h:45-69 | for self-adjoint A and M^-1, rtilde = r, ztilde = z, ptilde = p and qtilde = q in every pass |
| `Symmetry.SameCourse` | iml/bicg.h:45-74 | BiCG and CG then go through the same x, r, z, rho, beta, p, q and alpha in every pass both reach |
| `Symmetry.CGFollows` | iml/cg.h:43-67 | wherever BiCG gets without a breakdown, CG gets as well |
| `CG.TrueResidual` | iml/cg.h:57-58 | the recurrence residual is b - A x at the head of every pass |
| `CG.DirectionMeetsResidual` | iml/cg.h:44-58 | p . r = rho in every pass, and the direction just used is orthogonal to the new residual |
| `CG.NoBreakdown` | iml/cg.h:45-55 | for symmetric positive definite A and M^-1 and a nonzero residual, rho and p . A p are positive |
| `CG.NeverSolved` | iml/cg.h:43-67 | for self-adjoint A and M^-1 no pass that is completed found the residual zero: its direction would be zero |
| `CG.TwinBegun` | iml/cg.h:43-67 | the passes of CG, the one under way included, are those of BiCG for the system that is its own transpose |
| `CG.Conjugate` | iml/cg.h:43-66 | for self-adjoint A and M^-1: r_i . M^-1 r_j = 0 and p_i . A p_j = 0 for all i different from j, the pass under way included |
| `CG.PendingOrthogonal` | iml/cg.h:43-66 | for self-adjoint A and M^-1 every past direction is orthogonal to the current residual |
| `CG.FiniteTermination` | iml/cg.h:43-67 | for positive definite systems in dimension n a run has at most n passes, and after n passes the residual is zero |
| `CG.IterateReached` | iml/cg.h:57 | x is x0 plus the directions weighted by the step lengths |
| `CG.EnergyAlong` | iml/cg.h:55-57 | x.Ax/2 - b.x along a line is the quadratic whose slope is the residual |
| `CG.Optimal` | iml/cg.h:44-66 | x minimises x.Ax/2 - b.x over x0 plus the span of the directions so far, and is the only minimiser |
| `CG.EnergyDrop` | iml/cg.h:55-57 | each pass lowers that energy by exactly rho^2 / (2 p . A p) |
| `CG.NeverDividesByZero` | iml/cg.h:50-55 | for positive definite systems and tol >= 0 neither division of a pass that is entered is by zero |
| `CG.UnconvergedIs` | iml/cg.h:37-64 | no earlier x had passed the test, measured by its true relative residual |
| `CG.Converges` | iml/cg.h:43-67 | with tol >= 0 in dimension n, n passes are enough for the convergence test to succeed |
| `CG.Solve` | iml/cg.h:22-71 | the loop computes exactly the passes of a run; tol is the true relative residual on both codes; for positive definite systems with tol >= 0 and max_iter >= n in dimension n the code is 0 and the output max_iter is at most n; a zero divisor comes with an x that has failed the test |
| `Polynomials.EvalCommutes` | iml/cgs.h:44-72 | polynomials in the same linear operator commute |
| `Polynomials.EvalAdjoint` | iml/cgs.h:44-72 | the adjoint of p(A) is p of the adjoint |
| `CGS.TrueResidual` | iml/cgs.h:63-65 | the recurrence residual is b - A x at the head of every pass |
| `CGS.UnconvergedIs` | iml/cgs.h:38-71 | no earlier x had passed the test, measured by its true relative residual |
| `CGS.Update` | iml/cgs.h:50-65 | the in-place updates compute p, q, x and r of the pass, or find the divisor of alpha zero |
| `CGS.Solve` | iml/cgs.h:22-76 | the loop computes exactly the passes of a run; tol is the true relative residual on codes 0, 1 and 2; each code occurs under its condition only; code 2 leaves max_iter as it was, and code 2 and a zero divisor occur only where x has failed its test |
| `Squaring.BiCGPolynomials` | iml/bicg.h:45-75 | without preconditioner BiCG's r and p are its residual and direction polynomials in A applied to r0, its shadows the same in the adjoint |
| `Squaring.CGSSquaresBiCG` | iml/cgs.h:44-72 | without preconditioner CGS computes BiCG's rho, alpha and beta in every pass, its residual is BiCG's residual polynomial applied twice to r0, and u, p and q are the matching products |
| `RightSystem.RightLaws` | iml/cgs.h:58-64 | the right-preconditioned system A M^-1 y = r0 has a linear operator with an adjoint, starts from the same residual, and needs no preconditioner |
| `RightSystem.BackMoves` | iml/cgs.h:62-63 | a step of y along d is a step of x = x0 + M^-1 y along M^-1 d |
| `Squaring.SameCGS` | iml/cgs.h:44-72 | for every M^-1 with an adjoint, CGS has the same r, rho, beta, u, p, vhat, alpha, q and qhat on the system and on its right-preconditioned form, and x = x0 + M^-1 y |
| `Squaring.PreconditionedSquares` | iml/cgs.h:44-72 | with a preconditioner CGS squares the residual polynomial of BiCG on the right-preconditioned system, with the same rho, alpha and beta |
| `Squaring.Lockstep` | iml/cgs.h:44-72 | for every M^-1 with an adjoint, CGS gets through exactly as many passes as BiCG on the right-preconditioned system: each has a zero divisor where the other has |
| `Squaring.FiniteRun` | iml/cgs.h:44-72 | in dimension n the loop of CGS completes at most n passes, for every M^-1 with an adjoint |
| `BiCGSTAB.StepResiduals` | iml/bicgstab.h:60-70 | s and s - omega t are b - A x after the half step and after the full step |
| `BiCGSTAB.TrueResidual` | iml/bicgstab.h:57-70 | the recurrence residual is b - A x at the head of every pass |
| `BiCGSTAB.UnconvergedIs` | iml/bicgstab.h:39-77 | no earlier x had passed a test, after a full step or after a half step, measured by its true relative residual |
| `BiCGSTAB.Stabilises` | iml/bicgstab.h:68-70 | with t nonzero: r . t = 0, no other step along t leaves a shorter residual, norm(r) <= norm(s), with equality exactly when omega is 0 |
| `BiCGSTAB.FirstHalf` | iml/bicgstab.h:51-60 | the in-place update computes p, v, alpha and s of the pass, or finds the divisor of alpha zero |
| `BiCGSTAB.SecondHalf` | iml/bicgstab.h:66-70 | the in-place update computes x, omega and r of the pass, with r = b - A x, or finds t . t zero |
| `BiCGSTAB.Solve` | iml/bicgstab.h:23-86 | tol is the norm of b - A x over normb on every code and on the half-step return; on code 0 max_iter is the number of passes begun exactly when the return is no half step or the last pass allowed; code 3 is returned exactly when the last full step had omega = 0; max_iter is what each exit assigns; the half-step return, code 2 and a zero divisor occur only where the x before has failed its test, and the half step only with both its divisors nonzero |
| `OneDimension.IsInnerProduct` | iml/bicgstab.h:25-33 | the real line satisfies the laws asked of a space |
| `OneDimension.FirstPass` | iml/bicgstab.h:45-65 | for x = 1 from x = 0 the first half step reaches the solution, and the tests before it fail for tol < 1 |
| `OneDimension.HalfStepReturn` | iml/bicgstab.h:45-65 | so one pass is begun and max_iter comes back as it was, whatever it was |
| `Smoothing.LeadingPart` | iml/bicgstab.h:45-82 | without preconditioner the stabilising polynomial of the adjoint applied to rtilde is a known multiple of BiCG's shadow residual, up to vectors that BiCG's residual annihilates |
| `Smoothing.PreconditionedLeadingPart` | iml/bicgstab.h:45-82 | the same with a preconditioner, for BiCG on the right-preconditioned system |
| `Smoothing.BiCGSTABSmoothsBiCG` | iml/bicgstab.h:45-82 | without preconditioner BiCGSTAB has BiCG's alpha and beta in every pass, its rho and the divisor of alpha are the same multiple of BiCG's, and its r, p and s are the product of the factors 1 - omega_j A applied to BiCG's |
| `Smoothing.SameBiCGSTAB` | iml/bicgstab.h:45-82 | for every M^-1 with an adjoint, BiCGSTAB has the same r, rho, beta, p, v, alpha, s, t and omega on the system and on its right-preconditioned form, and x = x0 + M^-1 y |
| `Smoothing.PreconditionedSmooths` | iml/bicgstab.h:45-82 | with a preconditioner BiCGSTAB smooths BiCG on the right-preconditioned system, with the same alpha and beta |
| `Smoothing.BiCGReaches` | iml/bicgstab.h:45-82 | for every M^-1 with an adjoint, wherever BiCGSTAB gets without a zero divisor, BiCG gets as well on the right-preconditioned system |
| `Smoothing.FiniteRun` | iml/bicgstab.h:45-82 | in dimension n the loop completes at most n full passes, for every M^-1 with an adjoint |
| `QMR.Divisors` | iml/qmr.h:108-132 | after the breakdown tests every remaining divisor is nonzero and gamma^2 (1 + theta^2) = 1 |
| `QMR.Invariants` | iml/qmr.h:74-150 | s = A d, and r = b - A x at every head of the loop |
| `QMR.UnitVectors` | iml/qmr.h:62-120 | rho and xi are the lengths of M1^-1 v_tld and M2^-T w_tld, and the y and z that the directions are made of have length 1 in every pass |
| `QMR.IsLanczos` | iml/qmr.h:82-120 | the normalised vectors and directions of QMR are a two-sided Lanczos history for the preconditioner M2^-1 M1^-1 |
| `QMR.Biorthogonal` | iml/qmr.h:82-120 | w_i . M2^-1 M1^-1 v_k = 0 and q_i . A p_k = 0 for all i different from k |
| `QMR.FiniteRun` | iml/qmr.h:74-150 | in dimension n the loop completes at most n passes |
| `QMR.GalerkinResidual` | iml/qmr.h:125-143 | the Galerkin iterate along the same directions leaves a residual parallel to the next Lanczos vector, by the factor eta / gamma^2 |
| `QMR.ResidualMean` | iml/qmr.h:125-143 | each residual of QMR is the mean of its predecessor and the Galerkin residual, with weights 1 - gamma^2 and gamma^2 |
| `QMR.RhoVanishesLast` | iml/qmr.h:76-77 | with a nonsingular M1 the scalar rho is zero only where the residual is |
| `QMR.NoRhoBreakdown` | iml/qmr.h:76-77 | so with tol >= 0 the first breakdown test never succeeds |
| `QMR.UnconvergedIs` | iml/qmr.h:56-149 | no earlier x had passed the test, measured by its true relative residual |
| `QuasiMinimal.QuasiResidual` | iml/qmr.h:103-118 | the residual of x0 plus any combination c of the directions has explicit coordinates g(c) in the normalised Lanczos vectors; a last vector that cannot be normalised must be zero, which a nonsingular M1 ensures (`InjectiveScales`) |
| `QuasiMinimal.OwnReached` | iml/qmr.h:134-142 | QMR's x is x0 plus an explicit combination of the directions |
| `QuasiMinimal.OwnCoordinates` | iml/qmr.h:125-143 | each pass scales the coordinates of QMR's residual by 1 - gamma^2 and adds the new one, -eta rho |
| `QuasiMinimal.OwnBalanced` | iml/qmr.h:125-132 | theta, gamma and eta make these coordinates satisfy the normal equations of the bidiagonal least-squares problem |
| `QuasiMinimal.Minimises` | iml/qmr.h:125-143 | the sum of the squares of g(c) is least for QMR's own iterate, and only where g(c) is the same |
| `QMR.Orient` | iml/qmr.h:82-108 | returns 5 or 6 exactly where delta or ep is the first to vanish, and the vectors and scalars of the pass otherwise |
| `QMR.Scalars` | iml/qmr.h:122-136 | theta, gamma, eta and the weight of the update; gamma is never 0, so code 4 is not returned |
| `QMR.Advance` | iml/qmr.h:112-143 | the updates of lines 112-143 give exactly the next head, d and s |
| `QMR.Solve` | iml/qmr.h:34-154 | the returned code is 0, 1, 2, 5, 6 or 7, and not 2 for a nonsingular M1 and tol >= 0; codes 0 and 1 return the true relative residual; a breakdown code names the first scalar that vanished, the breakdowns leave max_iter and tol alone, and come with an x whose true relative residual is still above tol |
| `IR.ResidualPower` | iml/ir.h:39-42 | the residual after k passes is (I - A M^-1)^k r0 |
| `IR.ResidualBound` | iml/ir.h:39-42 | if every pass shrinks residuals by q, the k-th is at most q^k times the first |
| `IR.OnePass` | iml/ir.h:39-42 | one pass ends in the solution of A x = b if and only if A undoes M^-1 on the first residual |
| `IR.ConvergesWithin` | iml/ir.h:39-48 | if q^K norm(r0) / normb <= tol, the K-th iterate passes the convergence test |
| `IR.Solve` | iml/ir.h:19-53 | returns the first iterate within max_iter that passes the test, or code 1 if there is none; tol is the true relative residual, and the code is 0 exactly if it is at most the given tol; a contraction by q returns 0 within any K <= max_iter with q^K norm(r0) / normb <= tol |
| `Rotations.GeneratePlaneRotation` | iml/gmres.h:24-39 | on all three branches cs^2 + sn^2 = 1 and the rotation zeroes the second component, without a division by zero |
| `Rotations.ApplyPlaneRotation` | iml/gmres.h:42-48 | the two components are replaced by those of the rotated pair, dy from the old dx |
| `Rotations.RotationIdentity` | iml/gmres.h:42-48 | rotating coordinates and frame alike changes no combination |
| `Cycle.FrontUnit` | iml/gmres.h:107-112 | the rotations keep the basis orthonormal |
| `Cycle.RotationKeeps` | iml/gmres.h:107-108 | a rotated Hessenberg column names the same vector in the rotated basis |
| `Cycle.AdvanceKeeps` | iml/gmres.h:99-112 | an inner step keeps: v orthonormal, M^-1 A v[j] the combination of v by the unrotated column j with a positive subdiagonal, the rotated columns upper triangular with a nonzero diagonal, and s the coordinates of the residual in the rotated basis |
| `Cycle.Shrinks` | iml/gmres.h:112 | abs(s(i+1)) <= abs(s(i)) |
| `Cycle.GramSchmidt` | iml/gmres.h:100-103 | although w changes between the dot products, it ends orthogonal to every basis vector, and the coefficients with it give back M^-1 A v[i] |
| `Cycle.NextBasisVector` | iml/gmres.h:104-105 | the normalised remainder extends the orthonormal basis and the Arnoldi relation |
| `Cycle.LowerBound` | iml/gmres.h:94-120 | no combination of the basis leaves a residual shorter than abs(s(i)) |
| `Cycle.BackSubstitution` | iml/gmres.h:56-64 | the solution of the triangular system combines the images of the basis to the right-hand side |
| `Cycle.Attained` | iml/gmres.h:63-64 | and leaves exactly abs(s(i)) |
| `Cycle.ReachedExactly` | iml/gmres.h:104-105 | if nothing is left of w and the last diagonal is nonzero, the basis combines to a vector with no residual |
| `Cycle.Singular` | iml/gmres.h:104-105 | if nothing is left of w and the last diagonal is zero, M^-1 A sends a nonzero vector to zero |
| `Cycle.OrthonormalBound` | iml/gmres.h:99-105 | in dimension n no orthonormal basis has more than n vectors |
| `Krylov.SameSpan` | iml/gmres.h:94-105 | the first k basis vectors of a cycle span exactly what r, B r, ..., B^(k-1) r span, for B = M^-1 A and the first preconditioned residual r of the cycle |
| `Hessenberg.Eliminate` | iml/gmres.h:59-60 | subtracts y(i) times column i from the entries above, and nothing else |
| `Hessenberg.Backsolve` | iml/gmres.h:54-61 | the in-place loops solve the triangular system H y = s |
| `Hessenberg.Update` | iml/gmres.h:50-65 | x becomes x plus the combination of v whose coefficients solve the triangular system |
| `Hessenberg.Orthogonalize` | iml/gmres.h:100-103 | the loop writes the Gram-Schmidt coefficients to column i of H, leaves the other columns alone and returns the remainder |
| `Hessenberg.RotateColumn` | iml/gmres.h:107-108 | the loop applies the rotations so far to column i, in order, and leaves the other columns alone |
| `Hessenberg.NewColumn` | iml/gmres.h:99-105 | v[i+1] extends the orthonormal basis, and column i expresses M^-1 A v[i] in it; otherwise norm(w) is zero |
| `Hessenberg.TriangularizeColumn` | iml/gmres.h:107-111 | the column ends upper triangular by rotations that are all recorded in cs and sn, the entry below the diagonal zero |
| `Hessenberg.Triangularize` | iml/gmres.h:107-112 | the arrays H, cs, sn, s and v hold the state after one more inner step |
| `GMRES.KnownResidual` | iml/gmres.h:112-116 | for the x' that Update would produce at any inner step, the norm of M^-1 (b - A x') is abs(s(i+1)), without forming x' |
| `GMRES.Minimal` | iml/gmres.h:63-64 | that x' has the smallest preconditioned residual norm over all of x plus the span of the basis |
| `GMRES.KrylovMinimal` | iml/gmres.h:63-64 | and over all of x plus the Krylov space of M^-1 A and M^-1 (b - A x) |
| `GMRES.KrylovReached` | iml/gmres.h:63-64 | of which x' itself is a member |
| `GMRES.StartInvariant` | iml/gmres.h:94-96 | the normalised residual and s = (beta, 0, ..., 0) start a cycle |
| `GMRES.BreakdownReaches` | iml/gmres.h:104-105 | where norm(w) is zero, the basis contains a correction with zero residual, or M^-1 A is singular |
| `GMRES.Step` | iml/gmres.h:99-112 | one inner step in place keeps the whole invariant of the cycle and does not raise the estimate |
| `GMRES.RunCycle` | iml/gmres.h:98-121 | the inner loop stops at the first estimate under tol, after m steps, at the end of max_iter, or at a zero norm(w); every state on the way satisfies the invariant |
| `GMRES.LegResidual` | iml/gmres.h:122-125 | after a cycle the recomputed beta equals abs(s) of its last state |
| `GMRES.EstimatesFall` | iml/gmres.h:112-114 | within a cycle the estimate never rises above its first value |
| `GMRES.LegNeverWorse` | iml/gmres.h:94-125 | no cycle raises the preconditioned residual |
| `GMRES.NeverWorse` | iml/gmres.h:93-131 | nor does any number of restarts |
| `GMRES.MeasuresSolution` | iml/gmres.h:78-89 | for a linear nonsingular M^-1 the relative residual GMRES measures is zero if and only if A x = b |
| `GMRES.Earliest` | iml/gmres.h:98-121 | as long as the tests of a cycle fail, no member of x plus the Krylov space so far would pass |
| `GMRES.RouteEarliest` | iml/gmres.h:93-131 | so in every cycle of a run, but for the step that ends it: GMRES stops at the first step at which any member passes |
| `GMRES.CutShort` | iml/gmres.h:98-122 | a cycle is cut short only if max_iter is no multiple of m |
| `GMRES.ShortCycle` | iml/gmres.h:98-121 | in dimension n a cycle completes fewer than n inner steps |
| `GMRES.RunLeg` | iml/gmres.h:94-122 | a cycle that converges or is full moves x to the minimiser, whose true resid is the estimate |
| `GMRES.Restart` | iml/gmres.h:93-135 | the outer loop: a chain of full cycles from x0, of which only the last may be shorter; the return at lines 125-130 is dead |
| `GMRES.Solve` | iml/gmres.h:67-136 | codes 0 and 1 return norm(M^-1 (b - A x)) over norm(M^-1 b), or over 1 where that is zero, and code 0 the number of inner steps; no earlier estimate was under tol; the residual never exceeds the first one; a zero division means a breakdown or an exact solution under tol <= 0, and like stale columns comes with an x that failed its test, before max_iter is used up; with n <= m and n <= max_iter in dimension n the budget never runs out |
| `Partition.OwnPartitions` | tools/oofem2part.py:141-153 | a partition is in the set of a node if and only if an element around the node is in it, and the status is LOCAL exactly if there is one |
| `Partition.HandOver` | tools/oofem2part.py:163-172 | on every branch the master ends with the union of the two sets, and its status is told by the nodes the sets came from |
| `Partition.ServeMasters` | tools/oofem2part.py:158-172 | the inner loop hands the partitions of one node to all its masters, also where the node is its own master or a master repeats |
| `Partition.ClassifyNodes` | tools/oofem2part.py:137-174 | a partition is in the set of a node if and only if an element of that partition lies around a source of the node; the status is LOCAL if and only if that is one partition and no source lies outside all elements |
| `Partition.SourcesAreChains` | tools/oofem2part.py:155-172 | the source set of a node is the set of starts of the ascending slave-to-master chains that end in it |
| `Partition.ClassifiedElements` | tools/oofem2part.py:141-174 | the same of any classification, over the connectivity and the element partition |
| `Partition.SweepBelowClosure` | tools/oofem2part.py:155-172 | the sweep gives no node more than every closed family must |
| `Partition.LeastClosureExactly` | tools/oofem2part.py:155-172 | the sweep reaches the least closure, for every distribution of the elements, if and only if the sources of every slave are sources of its masters |
| `Partition.CoveredByChains` | tools/oofem2part.py:155-172 | that condition holds if and only if every slave-to-master chain starts in a source of its end |
| `Partition.OrderedIsCovered` | tools/oofem2part.py:155-172 | it holds when every slave comes before those of its masters that are slaves themselves, in particular when no master is a slave |
| `Partition.LateSlave` | tools/oofem2part.py:155-172 | three nodes in the wrong order, for which the result is not closed |
| `Partition.IsolatedSlave` | tools/oofem2part.py:149-172 | a slave in no element makes its master SHARED although the master has one partition |
| `Partition.StatusTellsSize` | tools/oofem2part.py:150-153 | with every node in some element the status is LOCAL exactly when the final set has one member |
| `Partition.LeastClassification` | tools/oofem2part.py:137-174 | the classification as a whole: with every node in some element and slaves before masters that are slaves, the sets are the least closed family, and LOCAL are exactly the nodes with one partition |
| `PartitionFiles.WritePartition` | tools/oofem2part.py:248-274 | the counts in the component record equal the records written; local nodes come first, then shared ones, then the elements, each by ascending number |
| `PartitionFiles.FileOrder` | tools/oofem2part.py:256-271 | of any two node records the first is local and the second shared, or both are of one kind and ascend; the elements ascend |
| `PartitionFiles.FileContents` | tools/oofem2part.py:248-271 | a plain record stands for a LOCAL node of the partition, a record with a list for a SHARED one and lists its whole set; the elements are those of the partition; ndofman and nelem count the records |
| `PartitionFiles.WriteAll` | tools/oofem2part.py:424-426 | the classification, then one such file for every partition |
| `PartitionFiles.NodeInFile` | tools/oofem2part.py:256-268 | a node is in file k exactly when k is among its partitions, and then once |
| `PartitionFiles.NodeInFileByChain` | tools/oofem2part.py:137-268 | a node is in file k if and only if an ascending slave-to-master chain leads to it from a node of an element of partition k |
| `PartitionFiles.ElementsOnce` | tools/oofem2part.py:269-271 | every element is written once, to the file of its partition |
| `PartitionFiles.ElementsHaveTheirNodes` | tools/oofem2part.py:141-147 | a file that has an element has each of its nodes once |
| `PartitionFiles.NodesHaveTheirMasters` | tools/oofem2part.py:155-172 | a file that has a node has its masters, when the order of the nodes is one the sweep can serve |
| `PartitionFiles.SharedRecordsAgree` | tools/oofem2part.py:262-268 | all files write the same record for a node; the partitions it lists are exactly the files it is in; a record without list is in one file only |
| `PartitionFiles.Conservation` | tools/oofem2part.py:248-271 | over all files nelem adds up to the number of elements, and ndofman to the sum of the sizes of the partition sets |
| `PeriodicGrid.Bounded` | bindings/oofemlib/dream3d_analysis.C:128-131 | nC maps the grid into [0, n0 n1 n2) |
| `PeriodicGrid.Injective` | bindings/oofemlib/dream3d_analysis.C:128-131 | different nodes have different numbers |
| `PeriodicGrid.Surjective` | bindings/oofemlib/dream3d_analysis.C:128-131 | every number below n0 n1 n2 is the number of a node |
| `PeriodicGrid.CornerTable` | bindings/oofemlib/dream3d_analysis.C:288-295 | seven entries of the table give the corners of every element; the first does if and only if n[0] = n[2] |
| `PeriodicGrid.TableFits` | bindings/oofemlib/dream3d_analysis.C:288-304 | the numbers the table lists stay in the array for every element if and only if the grid is at most one node longer in z than in x |
| `PeriodicGrid.TooLong` | bindings/oofemlib/dream3d_analysis.C:288-304 | on a grid of 2 x 2 x 4 nodes the first number of the last element is one past the array |
| `PeriodicGrid.ListedTouches` | bindings/oofemlib/dream3d_analysis.C:288-304 | for n[0] = n[2] the listed nodes of an element are its eight corners |
| `PeriodicGrid.ListedNodes` | bindings/oofemlib/dream3d_analysis.C:288-304 | on any grid they are the seven other corners and the node whose number is n0 n1 + n2 above that of the first corner |
| `PeriodicGrid.MarkElement` | bindings/oofemlib/dream3d_analysis.C:294-304 | marks exactly the nodes the table lists for the element, and no other, on every grid where their numbers are in the array |
| `PeriodicGrid.MarkPhase` | bindings/oofemlib/dream3d_analysis.C:289-317 | after the loops a node is marked exactly when it is listed for some element e of the grid with phases[nC(e)] equal to 1, on every grid where the numbers of those elements are in the array |
| `PeriodicGrid.SweepZ` | bindings/oofemlib/dream3d_analysis.C:323-326 | a node is marked afterwards exactly when it was, or lies at z = 0 and its opposite was |
| `PeriodicGrid.SweepY` | bindings/oofemlib/dream3d_analysis.C:328-331 | the same for y |
| `PeriodicGrid.SweepX` | bindings/oofemlib/dream3d_analysis.C:333-336 | the same for x |
| `PeriodicGrid.SweepAll` | bindings/oofemlib/dream3d_analysis.C:319-336 | after the three sweeps a node is marked exactly when a node was that replaces some of its zero coordinates by the largest |
| `PeriodicGrid.LeastPeriodicClosure` | bindings/oofemlib/dream3d_analysis.C:319-336 | the result is closed in x, y and z at once, and contained in every closed marking that contains what the sweeps found |
| `PeriodicGrid.FindNonzeros` | src/oofemlib/intarray.C:155-171 | the positions, from 1 and in order, of the nonzero entries; the two passes agree on their number |
| `PeriodicGrid.NonzerosAre` | src/oofemlib/intarray.C:155-171 | i is listed exactly when entry i is not zero, and the list ascends |
| `PeriodicGrid.PrescribedNodes` | bindings/oofemlib/dream3d_analysis.C:283-414 | node set 7 lists, once each and in order, exactly the nodes on no far face none of whose periodic images is listed for an element with phases[nC(e)] equal to 1, stated in coordinates; none where all are 1, all nodes off the far faces where none is |
| `PeriodicGrid.AllOfPhase` | bindings/oofemlib/dream3d_analysis.C:283-414 | where all elements are of phase 1 no node is prescribed |
| `PeriodicGrid.NoneOfPhase` | bindings/oofemlib/dream3d_analysis.C:283-414 | where none is, exactly the nodes off the far faces are |
| `PeriodicGrid.PrescribedTouches` | bindings/oofemlib/dream3d_analysis.C:283-414 | for n[0] = n[2] these are the nodes none of whose periodic images touches an element of phase 1 |

## Left out

- Floating point: rounding, overflow and the behaviour of a division by zero. All arithmetic is over exact reals.
- Aliasing and storage of vectors: a vector is a value, and an update assigns a new one. Only GMRES's H, s, cs, sn, v and y are arrays updated in place.
- `GMRES.Solve`: a cycle that max_iter cuts short ends in `StaleColumns`, because what `Update` would read there belongs to an earlier cycle or to the caller; m is at least 1.
- `PeriodicGrid.PrescribedNodes`: the numbers listed for the elements of phase 1 must be numbers of nodes; what a write beyond the array does is not modelled.
- `iml/cheby.h`: beyond the residual bookkeeping proved for the others it has only easy members.
- `tools/oofem2part.py`: parsing, the adjacency graph and the call of metis; the element partition is a parameter, and so are the masters of each node. The hanging-node branch of `giveNodeMasters` appends a list of nodes as one entry and has no masters map to model.
- `PartitionFiles.WritePartition`: a record is told by its number and partition set; the text of records, header and bottom, and the order in which Python lists the members of a set, are not modelled.
- `getPartitionNodeList` in `tools/oofem2part.py` is never called.
- `bindings/oofemlib/dream3d_analysis.C`: the HDF5 input, the input records, the element boundary sets and the solver calls.
- Rates of convergence other than IR's.
