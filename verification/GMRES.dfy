/** iml/gmres.h: restarted GMRES. */
module GMRES {
  import opened Reals
  import opened VectorSpaces
  import opened Systems
  import opened Combinations
  import opened Rotations
  import opened Cycle
  import opened Krylov
  import opened Hessenberg

  // The preconditioned residual

  /** The operator whose Krylov space is built: M^-1 A. */
  function Image<V>(P: Problem<V>): V -> V {
    (u: V) => P.M.solve(P.A.mult(u))
  }

  ghost predicate Linears<V(!new)>(P: Problem<V>) {
    Valid(P) && Linear(P.S, P.M.solve)
  }

  lemma LinearsParts<V(!new)>(P: Problem<V>)
    requires Linears(P)
    ensures InnerProduct(P.S)
  {
  }

  /** B is that operator, whatever expression it is given by. */
  ghost predicate IsImage<V(!new)>(P: Problem<V>, B: V -> V) {
    forall u :: B(u) == P.M.solve(P.A.mult(u))
  }

  lemma ImageIs<V(!new)>(P: Problem<V>)
    ensures IsImage(P, Image(P))
  {
  }

  lemma ImageLinear<V(!new)>(P: Problem<V>, B: V -> V)
    requires Linears(P) && IsImage(P, B)
    ensures Linear(P.S, B)
  {
  }

  lemma MeasuredMoves<V(!new)>(P: Problem<V>, B: V -> V, x: V, e: V)
    requires Linears(P) && IsImage(P, B)
    ensures P.M.solve(P.Residual(P.S.axpy(x, 1.0, e))) == P.S.axpy(P.M.solve(P.Residual(x)), -1.0, B(e))
  {
    hide InnerProduct, Linear;
    ResidualMoves(P, x, 1.0, e);
    Distribute(P.S, P.M.solve, P.Residual(x), -1.0, P.A.mult(e));
  }

  lemma InvariantShaped<V(!new)>(S: Space<V>, B: V -> V, r: V, G: State<V>)
    requires Invariant(S, B, r, G)
    ensures Shaped(G)
  {
  }

  /** x plus the combination z of the basis. */
  function Improved<V>(P: Problem<V>, x: V, G: State<V>, z: seq<real>): V
    requires |z| <= |G.v|
  {
    P.S.axpy(x, 1.0, Combination(P.S, z, G.v))
  }

  /** What GMRES knows without forming x': the norm of its preconditioned residual is |s(i)|. */
  lemma KnownResidual<V(!new)>(P: Problem<V>, B: V -> V, x: V, G: State<V>, z: seq<real>)
    requires Linears(P) && IsImage(P, B) && Invariant(P.S, B, P.M.solve(P.Residual(x)), G) && Solves(G.cols, G.s, z)
    ensures P.S.norm(P.M.solve(P.Residual(Improved(P, x, G, z)))) == Estimate(G)
  {
    hide InnerProduct, Linear, Problem.Residual, IsImage, Arnoldi, Triangular, Orthonormal, AllUnit;
    var q, e := P.M.solve(P.Residual(Improved(P, x, G, z))), G.s[|G.g|];
    ImageLinear(P, B);
    MeasuredMoves(P, B, x, Combination(P.S, z, G.v));
    Attained(P.S, B, P.M.solve(P.Residual(x)), G, z);
    Square(P.S, q);
    assert Abs(e) * Abs(e) == e * e;
    SquareOrder(P.S.norm(q), Abs(e));
  }

  /** No combination y of the basis does better than the solution z of the triangular system. */
  lemma Minimal<V(!new)>(P: Problem<V>, B: V -> V, x: V, G: State<V>, z: seq<real>, y: seq<real>)
    requires Linears(P) && IsImage(P, B) && Invariant(P.S, B, P.M.solve(P.Residual(x)), G) && Solves(G.cols, G.s, z)
    requires |y| == |G.g|
    ensures P.S.norm(P.M.solve(P.Residual(Improved(P, x, G, z)))) <=
      P.S.norm(P.M.solve(P.Residual(Improved(P, x, G, y))))
  {
    hide InnerProduct, Linear, Problem.Residual, IsImage, Arnoldi, Triangular, Orthonormal, AllUnit;
    ImageLinear(P, B);
    MeasuredMoves(P, B, x, Combination(P.S, z, G.v));
    MeasuredMoves(P, B, x, Combination(P.S, y, G.v));
    Attained(P.S, B, P.M.solve(P.Residual(x)), G, z);
    LowerBound(P.S, B, P.M.solve(P.Residual(x)), G, y);
    SmallerNorm(P.S, P.M.solve(P.Residual(Improved(P, x, G, z))), P.M.solve(P.Residual(Improved(P, x, G, y))));
  }

  /** No vector of x plus the Krylov space of M^-1 A and the first residual does better either. */
  lemma KrylovMinimal<V(!new)>(P: Problem<V>, B: V -> V, x: V, G: State<V>, z: seq<real>, u: V)
    requires Linears(P) && IsImage(P, B) && Invariant(P.S, B, P.M.solve(P.Residual(x)), G) && Solves(G.cols, G.s, z)
    requires Spanned(P.S, Powers(B, P.M.solve(P.Residual(x)), |G.g|), |G.g|, u)
    ensures P.S.norm(P.M.solve(P.Residual(Improved(P, x, G, z)))) <=
      P.S.norm(P.M.solve(P.Residual(P.S.axpy(x, 1.0, u))))
  {
    hide InnerProduct, Linear, Problem.Residual, IsImage, Invariant, Solves, Combination;
    InvariantShaped(P.S, B, P.M.solve(P.Residual(x)), G);
    ImageLinear(P, B);
    SameSpan(P.S, B, P.M.solve(P.Residual(x)), G, |G.g|, u);
    var y: seq<real> :| |y| == |G.g| && u == Combination(P.S, y, G.v);
    Minimal(P, B, x, G, z, y);
  }

  /** And the vector GMRES takes is one of them. */
  lemma KrylovReached<V(!new)>(P: Problem<V>, B: V -> V, x: V, G: State<V>, z: seq<real>)
    requires Linears(P) && IsImage(P, B) && Invariant(P.S, B, P.M.solve(P.Residual(x)), G) && Solves(G.cols, G.s, z)
    ensures |z| == |G.g| < |G.v|
    ensures Spanned(P.S, Powers(B, P.M.solve(P.Residual(x)), |G.g|), |G.g|, Combination(P.S, z, G.v))
  {
    hide InnerProduct, Linear, Problem.Residual, IsImage, Invariant, Combination;
    InvariantShaped(P.S, B, P.M.solve(P.Residual(x)), G);
    SolvesSize(G.cols, G.s, z);
    ImageLinear(P, B);
    SameSpan(P.S, B, P.M.solve(P.Residual(x)), G, |G.g|, Combination(P.S, z, G.v));
  }

  // One cycle

  function Start<V>(v0: V, beta: real): State<V> {
    State([v0], [], [], [], [beta])
  }

  /** The normalised residual starts a cycle. */
  lemma StartInvariant<V(!new)>(P: Problem<V>, r: V, beta: real, v0: V)
    requires InnerProduct(P.S) && beta == P.S.norm(r) != 0.0 && v0 == P.S.Scale(1.0 / beta, r)
    ensures Invariant(P.S, Image(P), r, Start(v0, beta))
  {
    hide InnerProduct, Space.Scale, Image;
    var S, a, G := P.S, 1.0 / beta, Start(v0, beta);
    Square(S, r);
    ExpandScale(S, a, r, v0);
    ExpandScale(S, a, r, r);
    assert a * beta == 1.0;
    assert a * (a * (beta * beta)) == (a * beta) * (a * beta);
    assert Orthonormal(S, G.v);
    var f := Frame(S, G.v, G.g, 0);
    FrontStart(S, G.v, G.g);
    assert f == G.v;
    forall t ensures S.dot(r, t) == S.dot(Combination(S, G.s, f), t) {
      ExpandScale(S, a, r, t);
      LastTerm(S, G.s, f, t);
      EmptyCombination(S, f);
      Zero(S, t);
      assert beta * (a * S.dot(r, t)) == (beta * a) * S.dot(r, t);
    }
    Same(S, r, Combination(S, G.s, f));
  }

  /** Gram-Schmidt of the next image leaves nothing: the division on line 105 is by zero. */
  ghost predicate Breakdown<V(!new)>(S: Space<V>, B: V -> V, r: V, G: State<V>) {
    && Invariant(S, B, r, G)
    && S.norm(Reduced(S, G.v, B(G.v[|G.g|]), |G.v|).w) == 0.0
  }

  /** A breakdown is harmless or hopeless: the basis reaches the solution, or M^-1 A is singular. */
  lemma BreakdownReaches<V(!new)>(P: Problem<V>, B: V -> V, x: V, G: State<V>)
    requires Linears(P) && IsImage(P, B) && Breakdown(P.S, B, P.M.solve(P.Residual(x)), G)
    ensures
      || (exists y :: |y| == |G.v| && P.M.solve(P.Residual(Improved(P, x, G, y))) == P.S.zero)
      || (exists u :: u != P.S.zero && B(u) == P.S.zero)
  {
    hide InnerProduct, Linear, Problem.Residual, IsImage, Rotated, Invariant;
    var S, r := P.S, P.M.solve(P.Residual(x));
    ImageLinear(P, B);
    NothingLeft(S, B, r, G);
    var h := Reduced(S, G.v, B(G.v[|G.g|]), |G.v|).h;
    if Rotated(h, G.g, |G.g|)[|G.g|] != 0.0 {
      var y := ReachedExactly(S, B, r, G, h);
      MeasuredMoves(P, B, x, Combination(S, y, G.v));
      assert P.M.solve(P.Residual(Improved(P, x, G, y))) == S.zero;
    } else {
      var u := Singular(S, B, r, G, h);
    }
  }

  lemma AdvanceLast<V>(G: State<V>, h: seq<real>, v': V, gi: Rotation)
    requires |G.s| == |G.g| + 1 && |h| == |G.g| + 2
    ensures var i, N := |G.g|, Advance(G, h, v', gi);
      |N.g| == i + 1 && |N.s| == i + 2 && N.s[i + 1] == gi.Dy(G.s[i], 0.0)
  {
  }

  lemma StepStarts<V(!new)>(P: Problem<V>, r: V, G: State<V>)
    requires Linears(P) && Invariant(P.S, Image(P), r, G)
    ensures InnerProduct(P.S) && Shaped(G) && Orthonormal(P.S, G.v)
    ensures P.S.norm(Reduced(P.S, G.v, P.M.solve(P.A.mult(G.v[|G.g|])), |G.v|).w) == 0.0 ==>
      Breakdown(P.S, Image(P), r, G)
    ensures forall u :: Image(P)(u) == P.M.solve(P.A.mult(u))
  {
    hide InnerProduct, Linear, Orthonormal, AllUnit, Arnoldi, Triangular, Frame, Combination, Reduced;
  }

  /** One pass of the inner loop up to its convergence test, lines 99-112. */
  method Step<V(!new)>(P: Problem<V>, sqrt: real -> real, H: array2<real>, v: array<V>, cs: array<real>,
        sn: array<real>, s: array<real>, i: nat, ghost r: V, ghost G: State<V>)
    returns (ok: bool, ghost G': State<V>)
    requires Linears(P) && IsRoot(sqrt) && i == |G.g| && i + 1 < v.Length
    requires Separate(v, cs, sn, s) && Holds(H, v, cs, sn, s, G) && Invariant(P.S, Image(P), r, G)
    modifies H, v, cs, sn, s
    ensures ok ==>
      && Holds(H, v, cs, sn, s, G') && Invariant(P.S, Image(P), r, G') && |G'.g| == i + 1
      && Estimate(G') <= Estimate(G)
    ensures !ok ==> Breakdown(P.S, Image(P), r, G)
  {
    hide Linears, Invariant, Breakdown, Orthonormal, Combination, Reduced, Rotated, Column, Upper, Advance, Image,
      Rotation.Unit, Rotation.Dx, Rotation.Dy, IsRoot;
    G' := G;
    StepStarts(P, r, G);
    ok := NewColumn(P, H, v, i);
    if !ok {
      return;
    }
    ghost var h, v' := Column(H, i, i + 2), v[i + 1];
    assert v[..i + 2] == G.v + [v'];
    assert v[..i + 1] == G.v;
    UpperKept(G.cols, H, i);
    ghost var gi := Triangularize(sqrt, H, v, cs, sn, s, i, G, h);
    AdvanceKeeps(P.S, Image(P), r, G, h, v', gi);
    Shrinks(gi, G.s[i]);
    G' := Advance(G, h, v', gi);
    AdvanceLast(G, h, v', gi);
  }

  datatype CycleEnd = Hit | Full | OutOfBudget | Broken

  /** The estimates of a cycle before its last state all failed the test; so did the last unless it hit. */
  ghost predicate Missed<V(!new)>(states: seq<State<V>>, normb: real, tol: real, hit: bool)
    requires normb > 0.0
  {
    forall k: nat :: 0 < k < |states| && (k < |states| - 1 || !hit) ==>
      |states[k].g| < |states[k].s| && Estimate(states[k]) / normb >= tol
  }

  lemma FirstState<V(!new)>(S: Space<V>, B: V -> V, r: V, G: State<V>, normb: real, tol: real)
    requires Invariant(S, B, r, G) && |G.g| == 0 && normb > 0.0
    ensures History(S, B, r, [G]) && Missed([G], normb, tol, false)
  {
    hide Invariant;
    assert Reached(S, B, r, [G], 0);
  }

  lemma HoldsShaped<V>(H: array2<real>, v: array<V>, cs: array<real>, sn: array<real>, s: array<real>, G: State<V>)
    requires Holds(H, v, cs, sn, s, G)
    ensures |G.g| < |G.s| && |G.g| < s.Length && Estimate(G) == Abs(s[|G.g|])
  {
  }

  lemma StillMissed<V(!new)>(states: seq<State<V>>, G: State<V>, normb: real, tol: real)
    requires normb > 0.0 && Missed(states, normb, tol, false) && |G.g| < |G.s|
    ensures Missed(states + [G], normb, tol, true)
    ensures Estimate(G) / normb >= tol ==> Missed(states + [G], normb, tol, false)
  {
    hide Estimate;
  }

  /** The inner loop, lines 98-121 but for the call of Update. */
  method RunCycle<V(!new)>(P: Problem<V>, sqrt: real -> real, H: array2<real>, m: nat, v: array<V>, cs: array<real>,
        sn: array<real>, s: array<real>, ghost r: V, normb: real, tol: real, budget: int, ghost G0: State<V>)
    returns (end: CycleEnd, steps: nat, resid: real, ghost states: seq<State<V>>)
    requires Linears(P) && IsRoot(sqrt) && v.Length == m + 1 && m >= 1 && budget >= 1 && normb > 0.0
    requires Separate(v, cs, sn, s) && Holds(H, v, cs, sn, s, G0) && |G0.g| == 0 && Invariant(P.S, Image(P), r, G0)
    modifies H, v, cs, sn, s
    ensures History(P.S, Image(P), r, states) && steps == |states| - 1 <= m && steps <= budget
    ensures Missed(states, normb, tol, end == Hit)
    ensures end != Broken ==>
      Holds(H, v, cs, sn, s, states[steps]) && steps > 0 && resid == Estimate(states[steps]) / normb
    ensures end == Hit ==> resid < tol
    ensures end == Full ==> steps == m && resid >= tol
    ensures end == OutOfBudget ==> steps == budget < m
    ensures end == Broken ==> Breakdown(P.S, Image(P), r, states[steps]) && steps < m && steps < budget
  {
    hide Linears, Invariant, Holds, History, Missed, Breakdown, Estimate, IsRoot, Image;
    ghost var G := G0;
    states := [G];
    FirstState(P.S, Image(P), r, G, normb, tol);
    HoldsShaped(H, v, cs, sn, s, G);
    steps, resid := 0, 0.0;
    while steps < m && steps < budget
      invariant steps == |G.g| == |states| - 1 <= m && steps <= budget && G == states[steps]
      invariant Holds(H, v, cs, sn, s, G) && Invariant(P.S, Image(P), r, G)
      invariant History(P.S, Image(P), r, states) && Missed(states, normb, tol, false) && |G.g| < |G.s|
      invariant steps > 0 ==> resid == Estimate(G) / normb && resid >= tol
    {
      var ok;
      ok, G := Step(P, sqrt, H, v, cs, sn, s, steps, r, G);
      if !ok {
        return Broken, steps, resid, states;
      }
      HoldsShaped(H, v, cs, sn, s, G);
      HistoryGrows(P.S, Image(P), r, states, G);
      StillMissed(states, G, normb, tol);
      states := states + [G];
      steps := steps + 1;
      resid := Abs(s[steps]) / normb;
      if resid < tol {
        return Hit, steps, resid, states;
      }
    }
    return if steps == m then Full else OutOfBudget, steps, resid, states;
  }

  // The residual over one cycle

  /** One cycle: from x, through its states, by the coefficients z, to x'. */
  datatype Leg<V> = Leg(x: V, states: seq<State<V>>, z: seq<real>, x': V)

  ghost predicate Completed<V(!new)>(P: Problem<V>, c: Leg<V>) {
    && History(P.S, Image(P), P.M.solve(P.Residual(c.x)), c.states)
    && var G := c.states[|c.states| - 1];
      Solves(G.cols, G.s, c.z) && |c.z| <= |G.v| && c.x' == Improved(P, c.x, G, c.z)
  }

  lemma NonEmpty<V(!new)>(P: Problem<V>, c: Leg<V>)
    requires Completed(P, c)
    ensures c.states != []
  {
  }

  /** A completed cycle ends in the residual its last state promised. */
  lemma LegResidual<V(!new)>(P: Problem<V>, c: Leg<V>)
    requires Linears(P) && Completed(P, c)
    ensures var G := c.states[|c.states| - 1];
      |G.g| < |G.s| && P.S.norm(P.M.solve(P.Residual(c.x'))) == Estimate(G)
  {
    hide Linears, Invariant, Solves, Improved, Problem.Residual, Image, IsImage, Estimate;
    var k := |c.states| - 1;
    assert Reached(P.S, Image(P), P.M.solve(P.Residual(c.x)), c.states, k);
    InvariantShaped(P.S, Image(P), P.M.solve(P.Residual(c.x)), c.states[k]);
    ImageIs(P);
    KnownResidual(P, Image(P), c.x, c.states[k], c.z);
  }

  lemma {:induction false} EstimatesFall<V(!new)>(S: Space<V>, B: V -> V, r: V, states: seq<State<V>>, k: nat)
    requires History(S, B, r, states) && k < |states|
    ensures |states[0].g| < |states[0].s| && |states[k].g| < |states[k].s|
    ensures Estimate(states[k]) <= Estimate(states[0])
  {
    hide Orthonormal, AllUnit, Arnoldi, Triangular, Frame, Combination, Estimate;
    assert Reached(S, B, r, states, k);
    if k > 0 {
      EstimatesFall(S, B, r, states, k - 1);
    }
  }

  /** The estimate before the first step is the norm of the residual itself. */
  lemma FirstEstimate<V(!new)>(P: Problem<V>, x: V, states: seq<State<V>>)
    requires Linears(P) && History(P.S, Image(P), P.M.solve(P.Residual(x)), states)
    ensures |states[0].g| < |states[0].s| && Estimate(states[0]) == P.S.norm(P.M.solve(P.Residual(x)))
  {
    hide InnerProduct, Linear, Problem.Residual, Image, Arnoldi, Triangular, Orthonormal, AllUnit, Estimate;
    var G := states[0];
    assert Reached(P.S, Image(P), P.M.solve(P.Residual(x)), states, 0);
    assert Solves(G.cols, G.s, []);
    ImageIs(P);
    KnownResidual(P, Image(P), x, G, []);
    AddNothingYet(P.S, x, G.v);
  }

  /** No cycle raises the residual. */
  lemma LegNeverWorse<V(!new)>(P: Problem<V>, c: Leg<V>)
    requires Linears(P) && Completed(P, c)
    ensures P.S.norm(P.M.solve(P.Residual(c.x'))) <= P.S.norm(P.M.solve(P.Residual(c.x)))
  {
    hide Linears, Problem.Residual, Image, History, Solves, Improved, Estimate;
    NonEmpty(P, c);
    FirstEstimate(P, c.x, c.states);
    EstimatesFall(P.S, Image(P), P.M.solve(P.Residual(c.x)), c.states, |c.states| - 1);
    LegResidual(P, c);
  }

  // The residual over all cycles

  /** The divisor of the convergence tests. */
  function NormMB<V>(P: Problem<V>): (d: real)
    ensures d != 0.0
  {
    var n := P.S.norm(P.M.solve(P.b));
    if n == 0.0 then 1.0 else n
  }

  lemma NormMBIs<V(!new)>(P: Problem<V>)
    ensures var n := P.S.norm(P.M.solve(P.b)); NormMB(P) == if n == 0.0 then 1.0 else n
  {
  }

  lemma PositiveNormMB<V(!new)>(P: Problem<V>)
    requires Linears(P)
    ensures NormMB(P) > 0.0
  {
    Square(P.S, P.M.solve(P.b));
  }

  /** The relative preconditioned residual of x. */
  function Resid<V>(P: Problem<V>, x: V): real {
    P.S.norm(P.M.solve(P.Residual(x))) / NormMB(P)
  }

  lemma ResidIs<V(!new)>(P: Problem<V>, x: V)
    ensures Resid(P, x) == P.S.norm(P.M.solve(P.Residual(x))) / NormMB(P)
  {
  }

  /** The relative residual, over b, A and M. */
  lemma MeasuredIs<V(!new)>(P: Problem<V>, x: V)
    ensures var n := P.S.norm(P.M.solve(P.b));
      Resid(P, x) == P.S.norm(P.M.solve(P.Residual(x))) / if n == 0.0 then 1.0 else n
  {
    ResidIs(P, x);
    NormMBIs(P);
  }

  /** For a nonsingular M it vanishes at the solutions of A x = b and nowhere else. */
  lemma MeasuresSolution<V(!new)>(P: Problem<V>, x: V)
    requires Linears(P) && forall u :: P.M.solve(u) == P.S.zero ==> u == P.S.zero
    ensures P.M.solve(P.Residual(x)) == P.S.zero <==> P.A.mult(x) == P.b
    ensures Resid(P, x) == 0.0 <==> P.A.mult(x) == P.b
  {
    hide InnerProduct, Linear, Problem.Residual, NormMB;
    ResidualZero(P, x);
    ZeroImage(P.S, P.M.solve);
    NullIsZero(P.S, P.M.solve(P.Residual(x)));
  }

  ghost predicate LegAt<V(!new)>(P: Problem<V>, x0: V, m: nat, legs: seq<Leg<V>>, k: nat)
    requires k < |legs|
  {
    && Completed(P, legs[k])
    && legs[k].x == (if k == 0 then x0 else legs[k - 1].x')
    && 1 < |legs[k].states| <= m + 1
    && (k > 0 ==> |legs[k - 1].states| == m + 1)
  }

  /** The cycles follow one another from x0, all but the last of them m steps long. */
  ghost predicate Route<V(!new)>(P: Problem<V>, x0: V, m: nat, legs: seq<Leg<V>>) {
    forall k: nat :: k < |legs| ==> LegAt(P, x0, m, legs, k)
  }

  function End<V>(x0: V, legs: seq<Leg<V>>): V {
    if legs == [] then x0 else legs[|legs| - 1].x'
  }

  /** The number of inner steps. */
  function Steps<V>(legs: seq<Leg<V>>): int {
    if legs == [] then 0 else Steps(legs[..|legs| - 1]) + |legs[|legs| - 1].states| - 1
  }

  lemma EmptyRoute<V(!new)>(P: Problem<V>, x0: V, m: nat)
    ensures Route(P, x0, m, []) && End(x0, []) == x0 && Steps<V>([]) == 0
  {
  }

  lemma RoutePrefix<V(!new)>(P: Problem<V>, x0: V, m: nat, legs: seq<Leg<V>>)
    requires Route(P, x0, m, legs) && legs != []
    ensures var k := |legs| - 1;
      Route(P, x0, m, legs[..k]) && Completed(P, legs[k]) && legs[k].x == End(x0, legs[..k])
  {
    hide Completed;
    var k := |legs| - 1;
    assert LegAt(P, x0, m, legs, k);
    forall l: nat | l < k ensures LegAt(P, x0, m, legs[..k], l) {
      assert LegAt(P, x0, m, legs, l);
    }
  }

  lemma Append<V(!new)>(P: Problem<V>, x0: V, m: nat, legs: seq<Leg<V>>, c: Leg<V>)
    requires Route(P, x0, m, legs) && Completed(P, c) && c.x == End(x0, legs) && 1 < |c.states| <= m + 1
    requires legs != [] ==> |legs[|legs| - 1].states| == m + 1
    ensures Route(P, x0, m, legs + [c]) && End(x0, legs + [c]) == c.x'
    ensures Steps(legs + [c]) == Steps(legs) + |c.states| - 1
  {
    hide Completed;
    var n := legs + [c];
    assert n[..|n| - 1] == legs;
    forall k: nat | k < |n| ensures LegAt(P, x0, m, n, k) {
      if k < |legs| {
        assert LegAt(P, x0, m, legs, k);
      }
    }
  }

  /** Nor does any sequence of them. */
  lemma {:induction false} NeverWorse<V(!new)>(P: Problem<V>, x0: V, m: nat, legs: seq<Leg<V>>)
    requires Linears(P) && Route(P, x0, m, legs)
    ensures Resid(P, End(x0, legs)) <= Resid(P, x0)
    decreases |legs|
  {
    hide Linears, Completed, Problem.Residual;
    if legs != [] {
      var k := |legs| - 1;
      RoutePrefix(P, x0, m, legs);
      NeverWorse(P, x0, m, legs[..k]);
      LegNeverWorse(P, legs[k]);
      PositiveNormMB(P);
      DivideOrder(P.S.norm(P.M.solve(P.Residual(legs[k].x'))), P.S.norm(P.M.solve(P.Residual(legs[k].x))), NormMB(P));
    }
  }

  // A cycle that max_iter cuts short

  lemma Multiples(m: nat, k: int)
    ensures k >= 1 ==> m * k >= m
    ensures k <= 0 ==> m * k <= 0
  {
  }

  lemma NotMultiple(q: nat, m: nat, s: nat)
    requires 0 < s < m
    ensures (q * m + s) % m != 0
  {
    var t := q * m + s;
    var k := t / m - q;
    Multiples(m, k);
    assert t == m * (t / m) + t % m;
    assert m * k == m * (t / m) - q * m;
  }

  lemma {:induction false} FullSteps<V(!new)>(P: Problem<V>, x0: V, m: nat, legs: seq<Leg<V>>)
    requires Route(P, x0, m, legs) && (legs != [] ==> |legs[|legs| - 1].states| == m + 1)
    ensures Steps(legs) == |legs| * m
    decreases |legs|
  {
    hide Completed;
    if legs != [] {
      var k := |legs| - 1;
      RoutePrefix(P, x0, m, legs);
      assert LegAt(P, x0, m, legs, k);
      FullSteps(P, x0, m, legs[..k]);
      assert (k + 1) * m == k * m + m;
    }
  }

  /** A cut cycle means the budget was no multiple of m. */
  lemma CutShort<V(!new)>(P: Problem<V>, x0: V, m: nat, legs: seq<Leg<V>>, steps: nat)
    requires Route(P, x0, m, legs) && (legs != [] ==> |legs[|legs| - 1].states| == m + 1) && 0 < steps < m
    ensures (Steps(legs) + steps) % m != 0
  {
    FullSteps(P, x0, m, legs);
    NotMultiple(|legs|, m, steps);
  }

  // Finite dimension

  /** In dimension n a cycle has fewer than n steps: by then it has converged or broken down. */
  lemma ShortCycle<V(!new)>(P: Problem<V>, r: V, states: seq<State<V>>, n: nat)
    requires Linears(P) && History(P.S, Image(P), r, states) && Dimension(P.S, n)
    ensures |states| <= n
  {
    hide InnerProduct, Linear, Image, Orthonormal, AllUnit, Arnoldi, Triangular, Frame, Combination, Dimension;
    var k := |states| - 1;
    assert Reached(P.S, Image(P), r, states, k);
    OrthonormalBound(P.S, states[k].v, n);
  }

  /** A full cycle of m >= n steps is impossible. */
  lemma NoFullCycle<V(!new)>(P: Problem<V>, x0: V, m: nat, legs: seq<Leg<V>>, n: nat)
    requires Linears(P) && Route(P, x0, m, legs) && legs != [] && |legs[|legs| - 1].states| == m + 1
    requires Dimension(P.S, n)
    ensures m < n
  {
    hide Linears, History, Solves, Improved, Problem.Residual, Image, Dimension;
    var c := legs[|legs| - 1];
    assert LegAt(P, x0, m, legs, |legs| - 1);
    ShortCycle(P, P.M.solve(P.Residual(c.x)), c.states, n);
  }

  // The solver

  /** The entries of s after "s = 0.0; s(0) = beta". */
  method Reset(s: array<real>, beta: real)
    requires s.Length > 0
    modifies s
    ensures s[0] == beta && forall k :: 0 < k < s.Length ==> s[k] == 0.0
  {
    var k := 0;
    while k < s.Length
      invariant 0 <= k <= s.Length && forall c :: 0 <= c < k ==> s[c] == 0.0
    {
      s[k] := 0.0;
      k := k + 1;
    }
    s[0] := beta;
  }

  /** A cycle under way from x, short of its m steps. */
  ghost predicate Unfinished<V(!new)>(P: Problem<V>, x: V, m: nat, open: seq<State<V>>) {
    0 < |open| <= m && History(P.S, Image(P), P.M.solve(P.Residual(x)), open)
  }

  lemma IsUnfinished<V(!new)>(P: Problem<V>, x: V, m: nat, open: seq<State<V>>)
    requires History(P.S, Image(P), P.M.solve(P.Residual(x)), open) && |open| <= m
    ensures Unfinished(P, x, m, open)
  {
  }

  /** No estimate of a cycle was under the tolerance, but for its last one if the cycle ended in a hit. */
  ghost predicate Waited<V(!new)>(P: Problem<V>, states: seq<State<V>>, tol: real, hit: bool) {
    NormMB(P) > 0.0 && Missed(states, NormMB(P), tol, hit)
  }

  ghost predicate Patient<V(!new)>(P: Problem<V>, legs: seq<Leg<V>>, tol: real, hit: bool) {
    forall k: nat :: k < |legs| ==> Waited(P, legs[k].states, tol, hit && k == |legs| - 1)
  }

  /** No combination of the basis is measured below the estimate. */
  lemma NoneBelow<V(!new)>(P: Problem<V>, B: V -> V, x: V, G: State<V>, y: seq<real>)
    requires Linears(P) && IsImage(P, B) && Invariant(P.S, B, P.M.solve(P.Residual(x)), G) && |y| == |G.g|
    ensures Estimate(G) <= P.S.norm(P.M.solve(P.Residual(Improved(P, x, G, y))))
  {
    hide InnerProduct, Linear, Problem.Residual, IsImage, Arnoldi, Triangular, Orthonormal, AllUnit, Combination;
    var q, e := P.M.solve(P.Residual(Improved(P, x, G, y))), G.s[|G.g|];
    ImageLinear(P, B);
    MeasuredMoves(P, B, x, Combination(P.S, y, G.v));
    LowerBound(P.S, B, P.M.solve(P.Residual(x)), G, y);
    Square(P.S, q);
    assert Abs(e) * Abs(e) == e * e;
    SquareOrder(P.S.norm(q), Abs(e));
  }

  /** As long as the tests fail, no vector of x plus the Krylov space would pass one. */
  lemma Earliest<V(!new)>(P: Problem<V>, x: V, states: seq<State<V>>, tol: real, hit: bool, l: nat, u: V)
    requires Linears(P) && History(P.S, Image(P), P.M.solve(P.Residual(x)), states) && Waited(P, states, tol, hit)
    requires 0 < l < |states| && (hit ==> l < |states| - 1)
    requires Spanned(P.S, Powers(Image(P), P.M.solve(P.Residual(x)), l), l, u)
    ensures Resid(P, P.S.axpy(x, 1.0, u)) >= tol
  {
    hide InnerProduct, Linear, Problem.Residual, Image, Invariant, NormMB, Combination, Estimate;
    var G, r := states[l], P.M.solve(P.Residual(x));
    assert Reached(P.S, Image(P), r, states, l);
    ImageIs(P);
    ImageLinear(P, Image(P));
    SameSpan(P.S, Image(P), r, G, l, u);
    var y: seq<real> :| |y| == l && u == Combination(P.S, y, G.v);
    NoneBelow(P, Image(P), x, G, y);
    DivideOrder(Estimate(G), P.S.norm(P.M.solve(P.Residual(P.S.axpy(x, 1.0, u)))), NormMB(P));
  }

  /** So in every cycle of a run, step by step, but for the step that ends it with code 0. */
  lemma RouteEarliest<V(!new)>(P: Problem<V>, x0: V, m: nat, legs: seq<Leg<V>>, tol: real, hit: bool, k: nat, l: nat,
        u: V)
    requires Linears(P) && Route(P, x0, m, legs) && Patient(P, legs, tol, hit)
    requires k < |legs| && 0 < l < |legs[k].states| && (hit ==> k < |legs| - 1 || l < |legs[k].states| - 1)
    requires Spanned(P.S, Powers(Image(P), P.M.solve(P.Residual(legs[k].x)), l), l, u)
    ensures Resid(P, P.S.axpy(legs[k].x, 1.0, u)) >= tol
  {
    hide Linears, Problem.Residual, Image, NormMB, Resid, Spanned, Waited, History;
    assert LegAt(P, x0, m, legs, k);
    Earliest(P, legs[k].x, legs[k].states, tol, hit && k == |legs| - 1, l, u);
  }

  lemma StillPatient<V(!new)>(P: Problem<V>, legs: seq<Leg<V>>, c: Leg<V>, tol: real, hit: bool)
    requires Patient(P, legs, tol, false) && Waited(P, c.states, tol, hit)
    ensures Patient(P, legs + [c], tol, hit)
  {
    hide Waited;
  }

  lemma NoLegs<V(!new)>(P: Problem<V>, tol: real)
    ensures Patient(P, [], tol, false) && Patient(P, [], tol, true)
  {
  }

  /** The call of Update after steps inner steps. */
  method ImproveBy<V(!new)>(P: Problem<V>, x0: V, steps: nat, H: array2<real>, s: array<real>, v: array<V>,
        cs: array<real>, sn: array<real>, ghost states: seq<State<V>>)
    returns (x: V, z: seq<real>)
    requires Linears(P) && steps > 0 && |states| == steps + 1
    requires History(P.S, Image(P), P.M.solve(P.Residual(x0)), states)
    requires Holds(H, v, cs, sn, s, states[steps])
    ensures Completed(P, Leg(x0, states, z, x))
  {
    hide InnerProduct, Linear, Problem.Residual, Image, Combination, Upper, Arnoldi, Orthonormal, AllUnit;
    ghost var G := states[steps];
    assert Reached(P.S, Image(P), P.M.solve(P.Residual(x0)), states, steps);
    forall j: nat | j <= steps - 1 ensures H[j, j] != 0.0 {
      assert Triangular(P.S, Image(P), G, j);
    }
    x, z := Update(P.S, x0, steps - 1, H, s, v);
    assert v[..steps] == G.v[..steps];
    CombinationPrefix(P.S, z, v[..steps], G.v);
  }

  /** One pass of the outer loop up to the recomputed residual, lines 94-122. */
  method RunLeg<V(!new)>(P: Problem<V>, sqrt: real -> real, H: array2<real>, m: nat, v: array<V>, cs: array<real>,
        sn: array<real>, s: array<real>, x0: V, r: V, beta: real, normb: real, tol: real, budget: int)
    returns (end: CycleEnd, steps: nat, resid: real, x: V, ghost z: seq<real>, ghost states: seq<State<V>>)
    requires Linears(P) && IsRoot(sqrt) && m >= 1 && Sized(H, m) && budget >= 1 && Separate(v, cs, sn, s)
    requires v.Length == s.Length == cs.Length == sn.Length == m + 1
    requires r == P.M.solve(P.Residual(x0)) && beta == P.S.norm(r) != 0.0 && normb == NormMB(P)
    modifies H, v, cs, sn, s
    ensures steps == |states| - 1 <= m && steps <= budget
    ensures end.Hit? || end.Full? ==> Completed(P, Leg(x0, states, z, x)) && resid == Resid(P, x) && steps > 0
    ensures end.OutOfBudget? || end.Broken? ==> Unfinished(P, x0, m, states)
    ensures Waited(P, states, tol, end == Hit)
    ensures end == Hit ==> resid < tol
    ensures end == Full ==> steps == m && resid >= tol
    ensures end == OutOfBudget ==> steps == budget < m
    ensures end == Broken ==> Breakdown(P.S, Image(P), r, states[steps]) && steps < m && steps < budget
  {
    hide Linears, NormMB, Completed, History, Invariant, Problem.Residual, Image, IsRoot, Missed, Breakdown, Improved,
      Space.Scale;
    PositiveNormMB(P);
    v[0] := P.S.Scale(1.0 / beta, r);
    Reset(s, beta);
    ghost var G := Start(v[0], beta);
    assert InnerProduct(P.S) by { LinearsParts(P); }
    StartInvariant(P, r, beta, v[0]);
    assert v[..1] == G.v && s[..1] == G.s;
    end, steps, resid, states := RunCycle(P, sqrt, H, m, v, cs, sn, s, r, normb, tol, budget, G);
    x, z := x0, [];
    if |states| <= m {
      IsUnfinished(P, x0, m, states);
    }
    if end == Hit || end == Full {
      x, z := ImproveBy(P, x0, steps, H, s, v, cs, sn, states);
      LegResidual(P, Leg(x0, states, z, x));
    }
  }

  /** The cycles so far: j - 1 inner steps, all cycles full, from x0 to x. */
  ghost predicate Travelled<V(!new)>(P: Problem<V>, x0: V, m: nat, legs: seq<Leg<V>>, x: V, j: int) {
    && Route(P, x0, m, legs) && x == End(x0, legs) && j == Steps(legs) + 1
    && (legs != [] ==> |legs[|legs| - 1].states| == m + 1)
  }

  /** In dimension n <= m the budget maxIter0 >= n cannot run out. */
  lemma RunsOut<V(!new)>(P: Problem<V>, x0: V, m: nat, legs: seq<Leg<V>>, x: V, j: int, open: seq<State<V>>,
        maxIter0: int)
    requires Linears(P) && Travelled(P, x0, m, legs, x, j) && maxIter0 >= 1
    requires j > maxIter0 || (Unfinished(P, x, m, open) && j + |open| - 2 == maxIter0)
    ensures forall n: nat :: n <= m && n <= maxIter0 ==> !Dimension(P.S, n)
  {
    hide Linears, Route, Completed, Resid, Dimension, History, Image, Problem.Residual;
    forall n: nat | n <= m && n <= maxIter0 && Dimension(P.S, n) ensures false {
      if legs != [] {
        NoFullCycle(P, x0, m, legs, n);
      } else if j <= maxIter0 {
        ShortCycle(P, P.M.solve(P.Residual(x)), open, n);
      }
    }
  }

  lemma TravelledParts<V(!new)>(P: Problem<V>, x0: V, m: nat, legs: seq<Leg<V>>, x: V, j: int)
    requires Travelled(P, x0, m, legs, x, j)
    ensures Route(P, x0, m, legs) && x == End(x0, legs) && j == Steps(legs) + 1
    ensures legs != [] ==> |legs[|legs| - 1].states| == m + 1
    ensures legs == [] ==> j == 1
  {
  }

  lemma Departure<V(!new)>(P: Problem<V>, x0: V, m: nat)
    ensures Travelled(P, x0, m, [], x0, 1)
  {
  }

  /** One more cycle, full or not. */
  lemma Arrival<V(!new)>(P: Problem<V>, x0: V, m: nat, legs: seq<Leg<V>>, c: Leg<V>, j: int)
    requires Linears(P) && Travelled(P, x0, m, legs, c.x, j) && Completed(P, c) && 1 < |c.states| <= m + 1
    ensures var n, j' := legs + [c], j + |c.states| - 1;
      && Route(P, x0, m, n) && c.x' == End(x0, n) && j' == Steps(n) + 1
      && Resid(P, c.x') <= Resid(P, x0)
      && (|c.states| == m + 1 ==> Travelled(P, x0, m, n, c.x', j'))
  {
    hide Linears, Route, Completed, Steps, End, Resid;
    Append(P, x0, m, legs, c);
    NeverWorse(P, x0, m, legs + [c]);
  }

  /** The outer loop, lines 93-131. */
  method Restart<V(!new)>(P: Problem<V>, sqrt: real -> real, x0: V, H: array2<real>, m: nat, maxIter0: int, tol0: real,
        v: array<V>, cs: array<real>, sn: array<real>, s: array<real>, r0: V, beta0: real, normb: real)
    returns (exit: Exit, x: V, maxIter: int, tol: real, ghost legs: seq<Leg<V>>, ghost open: seq<State<V>>)
    requires Linears(P) && IsRoot(sqrt) && m >= 1 && Sized(H, m) && Separate(v, cs, sn, s)
    requires v.Length == s.Length == cs.Length == sn.Length == m + 1
    requires r0 == P.M.solve(P.Residual(x0)) && beta0 == P.S.norm(r0) && normb == NormMB(P) && Resid(P, x0) > tol0
    modifies H, v, cs, sn, s
    ensures Route(P, x0, m, legs) && x == End(x0, legs)
    ensures exit == Code(0) ==> tol == Resid(P, x) && maxIter == Steps(legs) && tol < tol0
    ensures exit == Code(1) ==>
      tol == Resid(P, x) && Steps(legs) >= maxIter0 == maxIter && (if legs == [] then tol > tol0 else tol >= tol0)
    ensures exit.DivideByZero? || exit.StaleColumns? ==>
      maxIter == maxIter0 && tol == tol0 && (if legs == [] then Resid(P, x) > tol0 else Resid(P, x) >= tol0)
    ensures exit == DivideByZero ==>
      || (tol0 <= 0.0 && P.S.norm(P.M.solve(P.Residual(x))) == 0.0 && Steps(legs) < maxIter0)
      || (Unfinished(P, x, m, open) && Waited(P, open, tol0, false) && Steps(legs) + |open| - 1 < maxIter0 &&
        Breakdown(P.S, Image(P), P.M.solve(P.Residual(x)), open[|open| - 1]))
    ensures exit == StaleColumns ==>
      && Unfinished(P, x, m, open) && Waited(P, open, tol0, false)
      && Steps(legs) + |open| - 1 == maxIter0 && maxIter0 % m != 0
    ensures exit.Code? ==> 0 <= exit.code <= 1
    ensures Patient(P, legs, tol0, exit == Code(0))
    ensures legs == [] || Steps(legs) <= maxIter0
    ensures Resid(P, x) <= Resid(P, x0)
    ensures exit == Code(1) || exit == StaleColumns ==>
      forall n: nat :: n <= m && n <= maxIter0 && maxIter0 >= 1 ==> !Dimension(P.S, n)
  {
    hide Waited, Patient, Dimension, Linears, Travelled, Route, Completed, End, Steps, IsRoot, Breakdown, Resid, NormMB,
      Problem.Residual, Unfinished, Sized;
    x, maxIter, tol, legs, open := x0, maxIter0, tol0, [], [];
    var r, beta := r0, beta0;
    var resid := beta / normb;
    ResidIs(P, x);
    Departure(P, x0, m);
    NoLegs(P, tol);
    var j := 1;
    while j <= maxIter
      invariant Travelled(P, x0, m, legs, x, j) && Resid(P, x) <= Resid(P, x0)
      invariant maxIter == maxIter0 && tol == tol0 && 1 <= j && (legs == [] || j <= maxIter + 1)
      invariant Patient(P, legs, tol, false)
      invariant r == P.M.solve(P.Residual(x)) && beta == P.S.norm(r) && resid == Resid(P, x) >= tol
      invariant legs == [] ==> resid > tol
    {
      if beta == 0.0 {
        ResidIs(P, x);
        TravelledParts(P, x0, m, legs, x, j);
        return DivideByZero, x, maxIter, tol, legs, open;
      }
      var end, steps, x';
      ghost var z;
      end, steps, resid, x', z, open := RunLeg(P, sqrt, H, m, v, cs, sn, s, x, r, beta, normb, tol, maxIter - j + 1);
      if end == Broken {
        TravelledParts(P, x0, m, legs, x, j);
        return DivideByZero, x, maxIter, tol, legs, open;
      }
      if end == OutOfBudget {
        TravelledParts(P, x0, m, legs, x, j);
        CutShort(P, x0, m, legs, steps);
        RunsOut(P, x0, m, legs, x, j, open, maxIter);
        return StaleColumns, x, maxIter, tol, legs, open;
      }
      ghost var c := Leg(x, open, z, x');
      Arrival(P, x0, m, legs, c, j);
      StillPatient(P, legs, c, tol, end == Hit);
      legs := legs + [c];
      j := j + steps;
      x := x';
      if end == Hit {
        return Code(0), x, j - 1, resid, legs, open;
      }
      r := P.M.solve(P.Residual(x));
      beta := P.S.norm(r);
      resid := beta / normb;
      ResidIs(P, x);
      if resid < tol {
        assert false;
      }
    }
    TravelledParts(P, x0, m, legs, x, j);
    if maxIter >= 1 {
      RunsOut(P, x0, m, legs, x, j, open, maxIter);
    }
    return Code(1), x, maxIter, resid, legs, open;
  }

  /** GMRES of iml/gmres.h; legs records its cycles, open the states of one it could not complete. */
  method Solve<V(!new)>(P: Problem<V>, sqrt: real -> real, x0: V, H: array2<real>, m: nat, maxIter0: int, tol0: real)
    returns (exit: Exit, x: V, maxIter: int, tol: real, ghost legs: seq<Leg<V>>, ghost open: seq<State<V>>)
    requires Linears(P) && IsRoot(sqrt) && m >= 1 && Sized(H, m)
    modifies H
    ensures Route(P, x0, m, legs) && x == End(x0, legs)
    ensures exit == Code(0) ==>
      tol == Resid(P, x) && maxIter == Steps(legs) && (if legs == [] then tol <= tol0 else tol < tol0)
    ensures exit == Code(1) ==>
      tol == Resid(P, x) && Steps(legs) >= maxIter0 == maxIter && (if legs == [] then tol > tol0 else tol >= tol0)
    ensures exit.DivideByZero? || exit.StaleColumns? ==>
      maxIter == maxIter0 && tol == tol0 && (if legs == [] then Resid(P, x) > tol0 else Resid(P, x) >= tol0)
    ensures exit == DivideByZero ==>
      || (tol0 <= 0.0 && P.S.norm(P.M.solve(P.Residual(x))) == 0.0 && Steps(legs) < maxIter0)
      || (Unfinished(P, x, m, open) && Waited(P, open, tol0, false) && Steps(legs) + |open| - 1 < maxIter0 &&
        Breakdown(P.S, Image(P), P.M.solve(P.Residual(x)), open[|open| - 1]))
    ensures exit == StaleColumns ==>
      && Unfinished(P, x, m, open) && Waited(P, open, tol0, false)
      && Steps(legs) + |open| - 1 == maxIter0 && maxIter0 % m != 0
    ensures exit.Code? ==>
      && 0 <= exit.code <= 1
      && var n := P.S.norm(P.M.solve(P.b));
        tol == P.S.norm(P.M.solve(P.Residual(x))) / if n == 0.0 then 1.0 else n
    ensures Patient(P, legs, tol0, exit == Code(0))
    ensures legs == [] || Steps(legs) <= maxIter0
    ensures Resid(P, x) <= Resid(P, x0)
    ensures exit == Code(1) || exit == StaleColumns ==>
      forall n: nat :: n <= m && n <= maxIter0 && maxIter0 >= 1 ==> !Dimension(P.S, n)
  {
    hide Waited, Patient, Dimension, Linears, Route, End, Steps, IsRoot, Breakdown, Resid, NormMB, Problem.Residual,
      Unfinished;
    var S := P.S;
    x, maxIter, tol, legs, open := x0, maxIter0, tol0, [], [];
    var normb := S.norm(P.M.solve(P.b));
    var r := P.M.solve(P.Residual(x));
    var beta := S.norm(r);
    if normb == 0.0 {
      normb := 1.0;
    }
    NormMBIs(P);
    ResidIs(P, x);
    EmptyRoute(P, x0, m);
    NoLegs(P, tol);
    var resid := S.norm(r) / normb;
    if resid <= tol {
      MeasuredIs(P, x);
      return Code(0), x, 0, resid, legs, open;
    }
    var v := new V[m + 1](_ => S.zero);
    var s, cs, sn := new real[m + 1], new real[m + 1], new real[m + 1];
    exit, x, maxIter, tol, legs, open := Restart(P, sqrt, x, H, m, maxIter, tol, v, cs, sn, s, r, beta, normb);
    MeasuredIs(P, x);
  }
}
