/** The conflict step of the search with glucose's extra minimisation of the learnt clause. */
module BinaryLearning {
  import opened Sat
  import opened SolverState
  import opened Meaning
  import opened Analysis
  import opened SearchState
  import opened WatchClean
  import opened BinaryResolution
  import CdclSolver

  /** The minimiser looks at the solver's assignment, and its binary clauses follow from the solver's formula. */
  ghost predicate Matching(solver: CdclSolver.Solver, mini: Minimiser)
    reads solver, mini
  {
    && mini.Valid() && mini.assigns == solver.assigns && WatchesEntailed(solver.formula, mini.watchesBin)
    && forall p: Lit :: p.v < |solver.assigns| ==> p in mini.watchesBin
  }

  lemma AssertingLearnt(solver: CdclSolver.Solver, mini: Minimiser, c: seq<Lit>, bt: nat)
    requires Matching(solver, mini) && Asserting(solver.S(), c, bt)
    ensures mini.Learnt(c)
  {
    assert Neg(c[0]).v < |solver.assigns|;
  }

  /** Dropping literals other than the first leaves the clause asserting, up to the choice of the second watch. */
  lemma ShortenedAsserting(s: State, c: seq<Lit>, bt: nat, d: seq<Lit>)
    requires Asserting(s, c, bt) && d != [] && d[0] == c[0] && NoPair(d) && forall p :: p in d ==> p in c
    ensures AlmostAsserting(s, d)
  {
    forall k | 0 <= k < |d|
      ensures IsFalse(s.assigns, d[k]) && d[k].v < |s.vd| && (k > 0 ==> 0 < s.vd[d[k].v].level < |s.lim|)
    {
      assert d[k] in d;
      var i :| 0 <= i < |c| && c[i] == d[k];
      assert k > 0 ==> i > 0;
    }
  }

  /** Analyse the conflict, shorten a result that is not too long, and choose its second watch. */
  method AnalyzeShortened(solver: CdclSolver.Solver, mini: Minimiser, confl: CRef, sizeLimit: nat,
                           lbd: nat, ghost q: nat)
    returns (learnt: seq<Lit>, bt: nat)
    requires Struct(solver.S()) && Means(solver.formula, solver.S()) && solver.trailLim != [] && solver.NothingSeen()
    requires LastLim(solver.trailLim) <= q < |solver.trail|
    requires Conflicting(solver.ca, solver.assigns, confl, solver.trail[q]) && Matching(solver, mini)
    modifies solver`seen, solver`analyzeToclear, mini`permDiff, mini`myFlag
    ensures Asserting(solver.S(), learnt, bt) && Entails(solver.formula, learnt) && solver.NothingSeen()
    ensures Matching(solver, mini)
  {
    hide Struct, SemOk, Facts, Conflicting, Asserting, AlmostAsserting, Entails, WatchesEntailed, NoPair;
    learnt, bt := solver.Analyze(confl, q);
    if |learnt| <= sizeLimit {
      AssertingLearnt(solver, mini, learnt, bt);
      var d := mini.Minimise(learnt, lbd, solver.formula);
      ShortenedAsserting(solver.S(), learnt, bt, d);
      learnt, bt := solver.SecondWatch(d);
      SameLitsEntails(solver.formula, d, learnt);
    }
  }

  /** Learn a shortened clause: every invariant of the search is kept, and the step is progress. */
  method LearnShortened(solver: CdclSolver.Solver, mini: Minimiser, confl: CRef, sizeLimit: nat, lbd: nat,
                        ghost q: nat)
    requires solver.Base() && AssumptionsOk(solver.S(), solver.assumptions) && solver.trailLim != [] && solver.ok
    requires LevelsOk(solver.trailLim, |solver.trail|, |solver.assumptions|)
    requires WatchInv(solver.ca, solver.watches, solver.assigns, solver.vardata, solver.pos, LastLim(solver.trailLim))
    requires LastLim(solver.trailLim) <= q < |solver.trail|
    requires Conflicting(solver.ca, solver.assigns, confl, solver.trail[q]) && Matching(solver, mini)
    modifies solver, mini`permDiff, mini`myFlag
    ensures solver.Searching() && solver.Left() < old(solver.Left()) && |solver.assigns| == |old(solver.assigns)|
    ensures solver.formula == old(solver.formula) && solver.assumptions == old(solver.assumptions)
  {
    hide Struct, SemOk, Facts, WatchInv, DirtyOk, ListsOk, HeapOk, AssumptionsOk, Conflicting, LevelsOk, Remaining,
      Entails, Asserting, Matching;
    ghost var s := solver.S();
    var learnt, bt := AnalyzeShortened(solver, mini, confl, sizeLimit, lbd, q);
    solver.Backjump(learnt, bt);
    RemainingBackjump(s, solver.trailLim, |solver.trail|, bt, |solver.assumptions|);
  }
}
