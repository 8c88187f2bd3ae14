/** Shrinking a contradictory set of assumptions to a minimal one, by deletion and by divide and conquer. */
module CoreMinimization {
  import opened Sat
  import CdclSolver
  import Pipeline

  function Omit<T>(s: seq<T>, k: nat): seq<T>
    requires k < |s|
  {
    s[..k] + s[k + 1..]
  }

  /** Under the assumptions base the literals of core contradict f, and each of them is needed. */
  ghost predicate MinimalCore(f: Formula, base: seq<Lit>, core: seq<Lit>) {
    && Contradicts(f, base + core)
    && forall k :: 0 <= k < |core| ==> !Contradicts(f, base + Omit(core, k))
  }

  /** More literals contradict no less. */
  lemma Antitone(f: Formula, ps: seq<Lit>, qs: seq<Lit>)
    requires Contradicts(f, ps) && forall p :: p in ps ==> p in qs
    ensures Contradicts(f, qs)
  {
    forall a: Sat.Model | SatAll(a, f) ensures exists p :: p in qs && !Holds(a, p) {
      var p :| p in ps && !Holds(a, p);
    }
  }

  /** A solver whose variables may all be decided, as the repository's solvers are built. */
  ghost predicate Ready(solver: CdclSolver.Solver)
    reads solver
  {
    solver.Valid() && solver.decision == seq(|solver.assigns|, _ => true)
  }

  ghost predicate InRange(ps: seq<Lit>, n: nat) {
    forall p :: p in ps ==> p.v < n
  }

  /** The engine's two ways of repeating its search: with minisat's cap of twelve, or until there is a verdict. */
  datatype Mode = Capped | Restarting(limits: seq<int>)

  /**
   * What became of a call. Exact: what it returned is right. CutOff: the cap was hit with an undecided search behind
   * it, so a positive answer may be wrong. Lost: the cap was hit with a verdict behind it, and the engine, left above
   * level 0, is no longer modelled.
   */
  datatype Outcome = Exact | CutOff | Lost

  function Worse(x: Outcome, y: Outcome): Outcome {
    if x == Lost || y == Lost then Lost else if x == CutOff then CutOff else y
  }

  /**
   * `solve(ps)`: is the formula satisfiable together with ps? The assumptions stay set. A negative answer can always
   * be trusted; a positive one unless the search was cut off.
   */
  method SolveUnder(solver: CdclSolver.Solver, mode: Mode, ps: seq<Lit>) returns (sat: bool, outcome: Outcome)
    requires Ready(solver) && InRange(ps, |solver.assigns|)
    modifies solver
    ensures solver.formula == old(solver.formula) && solver.assumptions == ps
    ensures outcome != Lost ==> Ready(solver) && |solver.assigns| == |old(solver.assigns)|
    ensures outcome != Lost && !sat ==> Contradicts(solver.formula, ps)
    ensures outcome == Exact && sat ==> !Contradicts(solver.formula, ps)
    ensures mode.Restarting? ==> outcome == Exact
  {
    hide CdclSolver.Solver.Valid, CdclSolver.Solver.Answer, Contradicts;
    ghost var n := |solver.assigns|;
    var status;
    if mode.Restarting? {
      status := Pipeline.Run(solver, ps, mode.limits, false);
      outcome := Exact;
    } else {
      status, outcome := SolveCapped(solver, ps);
    }
    sat := status == True;
    if outcome == Exact {
      AnswerContradicts(solver, status, n);
    }
  }

  /** minisat's `solve_`. What the twelfth search said is kept by the model only: the source drops it. */
  method SolveCapped(solver: CdclSolver.Solver, ps: seq<Lit>) returns (status: LBool, outcome: Outcome)
    requires solver.Valid() && InRange(ps, |solver.assigns|)
    modifies solver
    ensures solver.formula == old(solver.formula) && solver.assumptions == ps
    ensures solver.decision == old(solver.decision) && |solver.assigns| == |old(solver.assigns)|
    ensures outcome != Lost ==> solver.Valid()
    ensures outcome == Exact ==> solver.Answer(status) && status != Undef
    ensures outcome != Exact ==> status == True
  {
    hide CdclSolver.Solver.Valid, CdclSolver.Solver.Answer;
    solver.Assume(ps);
    var capped, results;
    status, capped, results := solver.Solve(false);
    outcome := if !capped then Exact else if results[11] == Undef then CutOff else Lost;
  }

  lemma AnswerContradicts(solver: CdclSolver.Solver, status: LBool, n: nat)
    requires solver.Answer(status) && status != Undef && solver.decision == seq(n, _ => true)
    ensures status == True <==> !Contradicts(solver.formula, solver.assumptions)
  {
    if status == True {
      Pipeline.FullModel(solver, n);
    } else {
      ConflictContradicts(solver.formula, solver.conflict, solver.assumptions);
    }
  }

  // ---------------------------------------------------------------- deletion

  /** The literals kept so far are needed, given those not yet tried. */
  ghost predicate KeptNeeded(f: Formula, kept: seq<Lit>, rest: seq<Lit>) {
    forall k :: 0 <= k < |kept| ==> !Contradicts(f, Omit(kept, k) + rest)
  }

  lemma KeptFewer(f: Formula, kept: seq<Lit>, rest: seq<Lit>, fewer: seq<Lit>)
    requires KeptNeeded(f, kept, rest) && forall p :: p in fewer ==> p in rest
    ensures KeptNeeded(f, kept, fewer)
  {
    forall k | 0 <= k < |kept| ensures !Contradicts(f, Omit(kept, k) + fewer) {
      if Contradicts(f, Omit(kept, k) + fewer) {
        Antitone(f, Omit(kept, k) + fewer, Omit(kept, k) + rest);
      }
    }
  }

  lemma KeptOneMore(f: Formula, kept: seq<Lit>, rest: seq<Lit>, p: Lit)
    requires KeptNeeded(f, kept, rest + [p]) && !Contradicts(f, kept + rest)
    ensures KeptNeeded(f, [p] + kept, rest)
  {
    forall k | 0 <= k < |kept| + 1 ensures !Contradicts(f, Omit([p] + kept, k) + rest) {
      if k == 0 {
        assert Omit([p] + kept, 0) == kept;
      } else {
        assert Omit([p] + kept, k) == [p] + Omit(kept, k - 1);
        var now, before := [p] + Omit(kept, k - 1) + rest, Omit(kept, k - 1) + (rest + [p]);
        if Contradicts(f, now) {
          Antitone(f, now, before);
        }
      }
    }
  }

  lemma NothingKept(f: Formula, rest: seq<Lit>)
    ensures KeptNeeded(f, [], rest)
  {
  }

  /** Any literals taken from a list in range are in range. */
  lemma RangeParts(pat: seq<Lit>, n: nat)
    requires InRange(pat, n)
    ensures forall ps: seq<Lit> :: (forall p :: p in ps ==> p in pat) ==> InRange(ps, n)
  {
  }

  /**
   * Method 1: try to do without each literal in turn, from the last to the first. The result always contradicts the
   * formula, since an answer that was cut off only keeps a literal; it is minimal if no answer was cut off.
   */
  method MinimizeByDeletion(solver: CdclSolver.Solver, mode: Mode, pat: seq<Lit>)
    returns (result: seq<Lit>, outcome: Outcome)
    requires Ready(solver) && InRange(pat, |solver.assigns|) && Contradicts(solver.formula, pat)
    modifies solver
    ensures solver.formula == old(solver.formula) && (mode.Restarting? ==> outcome == Exact)
    ensures outcome != Lost ==> Ready(solver) && |solver.assigns| == |old(solver.assigns)|
    ensures outcome != Lost ==> Contradicts(solver.formula, result) && forall p :: p in result ==> p in pat
    ensures outcome == Exact ==> MinimalCore(solver.formula, [], result)
  {
    hide Ready, Contradicts, KeptNeeded;
    NothingKept(solver.formula, pat);
    RangeParts(pat, |solver.assigns|);
    hide InRange;
    result, outcome := pat, Exact;
    ghost var kept, rest: seq<Lit> := [], pat;
    var i := 0;
    while i < |pat|
      invariant 0 <= i <= |pat| && Ready(solver) && |solver.assigns| == |old(solver.assigns)|
      invariant solver.formula == old(solver.formula) && Contradicts(solver.formula, result)
      invariant result == kept + rest && rest == pat[..|pat| - i] && forall p :: p in kept ==> p in pat
      invariant outcome == Exact ==> KeptNeeded(solver.formula, kept, rest)
      invariant outcome != Lost && (mode.Restarting? ==> outcome == Exact)
    {
      assert InRange(kept + pat[..|pat| - i - 1], |solver.assigns|);
      var p := result[|result| - 1];
      rest := pat[..|pat| - i - 1];
      assert pat[..|pat| - i] == rest + [p];
      result := result[..|result| - 1];
      assert result == kept + rest;
      var sat, last := SolveUnder(solver, mode, result);
      if last == Lost {
        return result, Lost;
      }
      DeletionStep(solver.formula, kept, rest, p, sat, outcome == Exact, last == Exact);
      outcome := Worse(outcome, last);
      if sat {
        kept := [p] + kept;
        result := [p] + result;
        assert result == kept + rest;
      }
      i := i + 1;
    }
    assert kept + [] == kept == result;
    if outcome == Exact {
      MinimalRoot(solver.formula, result);
    }
  }

  /** What one probe does to the invariant: `exact` tells whether all answers before were right, `right` this one. */
  lemma DeletionStep(f: Formula, kept: seq<Lit>, rest: seq<Lit>, p: Lit, sat: bool, exact: bool, right: bool)
    requires Contradicts(f, kept + (rest + [p])) && (exact ==> KeptNeeded(f, kept, rest + [p]))
    requires !sat ==> Contradicts(f, kept + rest)
    requires right && sat ==> !Contradicts(f, kept + rest)
    ensures sat ==> Contradicts(f, [p] + kept + rest)
    ensures exact && right ==> KeptNeeded(f, if sat then [p] + kept else kept, rest)
  {
    hide Contradicts, KeptNeeded;
    if sat {
      Antitone(f, kept + (rest + [p]), [p] + kept + rest);
      if exact && right {
        KeptOneMore(f, kept, rest, p);
      }
    } else if exact {
      KeptFewer(f, kept, rest + [p], rest);
    }
  }

  lemma MinimalRoot(f: Formula, core: seq<Lit>)
    requires Contradicts(f, core) && KeptNeeded(f, core, [])
    ensures MinimalCore(f, [], core)
  {
    assert [] + core == core;
    forall k | 0 <= k < |core| ensures !Contradicts(f, [] + Omit(core, k)) {
      assert [] + Omit(core, k) == Omit(core, k) + [];
    }
  }

  // ---------------------------------------------------------------- divide and conquer

  /** Minimal cores of the two halves, each under the other, join to a minimal core. */
  lemma CoresJoin(f: Formula, base: seq<Lit>, low: seq<Lit>, solHigh: seq<Lit>, solLow: seq<Lit>)
    requires MinimalCore(f, base + low, solHigh) && MinimalCore(f, base + solHigh, solLow)
    requires forall p :: p in solLow ==> p in low
    ensures MinimalCore(f, base, solHigh + solLow)
  {
    hide Contradicts;
    var all := solHigh + solLow;
    assert base + solHigh + solLow == base + all;
    forall k | 0 <= k < |all| ensures !Contradicts(f, base + Omit(all, k)) {
      if k < |solHigh| {
        assert Omit(all, k) == Omit(solHigh, k) + solLow;
        if Contradicts(f, base + Omit(all, k)) {
          Antitone(f, base + Omit(all, k), base + low + Omit(solHigh, k));
        }
      } else {
        assert Omit(all, k) == solHigh + Omit(solLow, k - |solHigh|);
        assert base + Omit(all, k) == base + solHigh + Omit(solLow, k - |solHigh|);
      }
    }
  }

  /** Under assumptions that already contradict, nothing is needed; a single needed literal is minimal. */
  lemma SingleCore(f: Formula, base: seq<Lit>, p: Lit)
    requires Contradicts(f, base + [p])
    ensures Contradicts(f, base) ==> MinimalCore(f, base, []) && Contradicts(f, base + [])
    ensures !Contradicts(f, base) ==> MinimalCore(f, base, [p])
  {
    assert base + [] == base;
    assert Omit([p], 0) == [];
  }

  /** `solve_a`: solve under the current assumptions and the literals of pat. */
  method SolveAlso(solver: CdclSolver.Solver, mode: Mode, pat: seq<Lit>) returns (sat: bool, outcome: Outcome)
    requires Ready(solver) && InRange(solver.assumptions, |solver.assigns|) && InRange(pat, |solver.assigns|)
    modifies solver
    ensures solver.formula == old(solver.formula) && (mode.Restarting? ==> outcome == Exact)
    ensures outcome != Lost ==> Ready(solver) && |solver.assigns| == |old(solver.assigns)|
    ensures outcome != Lost && !sat ==> Contradicts(solver.formula, old(solver.assumptions) + pat)
    ensures outcome == Exact && sat ==> !Contradicts(solver.formula, old(solver.assumptions) + pat)
  {
    hide CdclSolver.Solver.Valid, Contradicts;
    var assumptions := solver.assumptions;
    var i := 0;
    while i < |pat|
      invariant 0 <= i <= |pat| && assumptions == solver.assumptions + pat[..i]
    {
      assert pat[..i + 1] == pat[..i] + [pat[i]];
      assumptions := assumptions + [pat[i]];
      i := i + 1;
    }
    assert pat[..|pat|] == pat;
    sat, outcome := SolveUnder(solver, mode, assumptions);
  }

  /** The upper part keeps the extra literal of an odd pattern. */
  method Split(pat: seq<Lit>) returns (high: seq<Lit>, low: seq<Lit>)
    ensures high + low == pat && |low| == |pat| / 2
  {
    high, low := pat, [];
    var i := 0;
    while i < |pat| / 2
      invariant 0 <= i <= |pat| / 2 && high + low == pat && |low| == i
    {
      assert high == high[..|high| - 1] + [high[|high| - 1]];
      low := [high[|high| - 1]] + low;
      high := high[..|high| - 1];
      i := i + 1;
    }
  }

  /** The pattern of the first recursive call, depending on what the probes of the two halves say. */
  function FirstCall(pat: seq<Lit>, satLow: bool): seq<Lit> {
    var n := |pat| - |pat| / 2;
    if satLow then pat[..n] else pat[n..]
  }

  /** The recursion makes progress exactly on patterns of two or more literals; an empty one calls for itself again. */
  lemma CallShrinks(pat: seq<Lit>, satLow: bool)
    ensures 0 < |FirstCall(pat, satLow)| < |pat| <==> |pat| > 1
    ensures pat == [] ==> FirstCall(pat, satLow) == pat
  {
  }

  /** `copyFrom`: set the solver's assumptions. */
  method CopyFrom(solver: CdclSolver.Solver, current: seq<Lit>)
    requires Ready(solver)
    modifies solver`assumptions
    ensures Ready(solver) && solver.assumptions == current
  {
    hide CdclSolver.Solver.Valid;
    solver.Assume(current);
  }

  /**
   * Method 2: a part of a non-empty pat that contradicts the formula under the solver's assumptions, minimal unless a
   * probe that decides about a single literal was cut off; probes of longer parts may be.
   */
  method MinimizeBySplitting(solver: CdclSolver.Solver, mode: Mode, pat: seq<Lit>)
    returns (result: seq<Lit>, outcome: Outcome)
    requires Ready(solver) && InRange(solver.assumptions, |solver.assigns|) && InRange(pat, |solver.assigns|)
    requires |pat| > 0 && Contradicts(solver.formula, solver.assumptions + pat)
    modifies solver
    ensures solver.formula == old(solver.formula) && (mode.Restarting? ==> outcome == Exact)
    ensures outcome != Lost ==> Ready(solver) && |solver.assigns| == |old(solver.assigns)|
    ensures outcome != Lost ==> Contradicts(solver.formula, old(solver.assumptions) + result)
    ensures outcome != Lost ==> forall p :: p in result ==> p in pat
    ensures outcome == Exact ==> MinimalCore(solver.formula, old(solver.assumptions), result)
    decreases |pat|, 1
  {
    hide CdclSolver.Solver.Valid, Contradicts, MinimalCore;
    var current := solver.assumptions;
    var sat;
    if |pat| == 1 {
      assert pat == [pat[0]];
      SingleCore(solver.formula, current, pat[0]);
      sat, outcome := SolveUnder(solver, mode, current);
      result := if sat then pat else [];
      return;
    }
    var high, low := Split(pat);
    sat, outcome := SolveAlso(solver, mode, low);
    if outcome == Lost {
      return [], Lost;
    }
    CopyFrom(solver, current);
    if !sat {
      result, outcome := MinimizeBySplitting(solver, mode, low);
      return;
    }
    sat, outcome := SolveAlso(solver, mode, high);
    if outcome == Lost {
      return [], Lost;
    }
    CopyFrom(solver, current);
    if !sat {
      result, outcome := MinimizeBySplitting(solver, mode, high);
      return;
    }
    result, outcome := MinimizeHalves(solver, mode, current, pat, high, low);
  }

  /** Both halves are needed: minimise the upper under the lower, then the lower under what is left of the upper. */
  method MinimizeHalves(solver: CdclSolver.Solver, mode: Mode, current0: seq<Lit>, ghost pat: seq<Lit>,
                        high: seq<Lit>, low: seq<Lit>)
    returns (result: seq<Lit>, outcome: Outcome)
    requires Ready(solver) && InRange(current0, |solver.assigns|) && InRange(pat, |solver.assigns|)
    requires pat == high + low && |high| > 0 && |low| > 0 && Contradicts(solver.formula, current0 + pat)
    modifies solver
    ensures solver.formula == old(solver.formula) && (mode.Restarting? ==> outcome == Exact)
    ensures outcome != Lost ==> Ready(solver) && |solver.assigns| == |old(solver.assigns)|
    ensures outcome != Lost ==> Contradicts(solver.formula, current0 + result)
    ensures outcome != Lost ==> forall p :: p in result ==> p in pat
    ensures outcome == Exact ==> MinimalCore(solver.formula, current0, result)
    decreases |pat|, 0
  {
    hide CdclSolver.Solver.Valid, Contradicts, MinimalCore;
    var current := current0 + low;
    Antitone(solver.formula, current0 + pat, current + high);
    CopyFrom(solver, current);
    var solHigh, solLow, first, second;
    solHigh, first := MinimizeBySplitting(solver, mode, high);
    if first == Lost {
      return [], Lost;
    }
    current := current[..|current| - |low|] + solHigh;
    assert current == current0 + solHigh;
    Antitone(solver.formula, current0 + low + solHigh, current + low);
    CopyFrom(solver, current);
    solLow, second := MinimizeBySplitting(solver, mode, low);
    outcome := Worse(first, second);
    if outcome == Lost {
      return [], Lost;
    }
    result := solHigh + solLow;
    assert current + solLow == current0 + result;
    if outcome == Exact {
      CoresJoin(solver.formula, current0, low, solHigh, solLow);
    }
  }
}
