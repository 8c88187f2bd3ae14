/** Preprocessing, then search, then extending the model: a decision procedure for the clauses given. */
module Pipeline {
  import opened Sat
  import opened SimpState
  import opened Reconstruction
  import opened Elimination
  import CdclSolver
  import Preprocessor

  /** The first k entries of the pool and the first t facts hold. */
  ghost predicate HoldsSoFar(a: Sat.Model, s: Simp, k: nat, t: nat)
    requires t <= |s.trail|
  {
    && (forall cr :: Problem(s.ca, cr) && cr < k ==> SatClause(a, s.ca[cr].lits))
    && (forall p :: p in s.trail[..t] ==> Holds(a, p))
  }

  ghost predicate Transferred(f: Formula, s: Simp, k: nat, t: nat)
    requires t <= |s.trail|
  {
    forall a: Sat.Model :: SatAll(a, f) <==> HoldsSoFar(a, s, k, t)
  }

  lemma TransferClause(f: Formula, s: Simp, k: nat)
    requires Transferred(f, s, k, 0) && k < |s.ca|
    ensures Problem(s.ca, k) ==> Transferred(f + [s.ca[k].lits], s, k + 1, 0)
    ensures !Problem(s.ca, k) ==> Transferred(f, s, k + 1, 0)
  {
    forall a: Sat.Model ensures SatAll(a, f + [s.ca[k].lits]) <==> SatAll(a, f) && SatClause(a, s.ca[k].lits) {
      SatAppend(a, f, s.ca[k].lits);
    }
  }

  lemma TransferFact(f: Formula, s: Simp, t: nat)
    requires t < |s.trail| && Transferred(f, s, |s.ca|, t)
    ensures Transferred(f + [[s.trail[t]]], s, |s.ca|, t + 1)
  {
    assert s.trail[..t + 1] == s.trail[..t] + [s.trail[t]];
    forall a: Sat.Model ensures SatAll(a, f + [[s.trail[t]]]) <==> SatAll(a, f) && Holds(a, s.trail[t]) {
      SatAppend(a, f, [s.trail[t]]);
      OneLiteral(a, s.trail[t]);
    }
  }

  lemma TransferDone(f: Formula, s: Simp)
    requires Transferred(f, s, |s.ca|, |s.trail|)
    ensures forall a: Sat.Model :: SatAll(a, f) <==> Models(a, s)
  {
    assert s.trail[..|s.trail|] == s.trail;
  }

  lemma TransferStart(s: Simp)
    ensures Transferred([], s, 0, 0)
  {
  }

  /** An engine with n decidable variables and no clauses. */
  method EmptyEngine(n: nat) returns (core: CdclSolver.Solver)
    ensures fresh(core) && core.Valid() && core.formula == []
    ensures core.decision == seq(n, _ => true) && |core.assigns| == n
  {
    hide CdclSolver.Solver.Valid;
    core := new CdclSolver.Solver();
    var v := 0;
    while v < n
      invariant 0 <= v <= n && fresh(core) && core.Valid() && core.ok && core.formula == []
      invariant core.decision == seq(v, _ => true) && |core.assigns| == v
    {
      var x := core.NewVar(false, true);
      v := v + 1;
    }
  }

  method TransferClauses(simp: Preprocessor.SimpSolver, core: CdclSolver.Solver)
    requires simp.Valid() && simp.ok && core.Valid() && core.formula == [] && |core.assigns| == |simp.assigns|
    modifies core
    ensures core.Valid() && core.decision == old(core.decision) && |core.assigns| == |simp.assigns|
    ensures Transferred(core.formula, simp.S(), |simp.ca|, 0)
  {
    hide CdclSolver.Solver.Valid, Shape, Reconstructs, Recorded, Within, Transferred, Unsat;
    TransferStart(simp.S());
    var k := 0;
    while k < |simp.ca|
      invariant 0 <= k <= |simp.ca| && core.Valid()
      invariant core.decision == old(core.decision) && |core.assigns| == |simp.assigns|
      invariant Transferred(core.formula, simp.S(), k, 0)
    {
      TransferClause(core.formula, simp.S(), k);
      if k > 0 && simp.ca[k].mark != 1 {
        ClauseVars(simp, k);
        var b := core.AddClause(simp.ca[k].lits);
      }
      k := k + 1;
    }
  }

  method TransferFacts(simp: Preprocessor.SimpSolver, core: CdclSolver.Solver)
    requires simp.Valid() && simp.ok && core.Valid() && |core.assigns| == |simp.assigns|
    requires Transferred(core.formula, simp.S(), |simp.ca|, 0)
    modifies core
    ensures core.Valid() && core.decision == old(core.decision) && |core.assigns| == |simp.assigns|
    ensures Transferred(core.formula, simp.S(), |simp.ca|, |simp.trail|)
  {
    hide CdclSolver.Solver.Valid, Shape, Reconstructs, Recorded, Within, Transferred, Unsat;
    var t := 0;
    while t < |simp.trail|
      invariant 0 <= t <= |simp.trail| && core.Valid()
      invariant core.decision == old(core.decision) && |core.assigns| == |simp.assigns|
      invariant Transferred(core.formula, simp.S(), |simp.ca|, t)
    {
      TransferFact(core.formula, simp.S(), t);
      FactVars(simp, t);
      var b := core.AddClause([simp.trail[t]]);
      t := t + 1;
    }
  }

  /** Hand the remaining clauses and facts to the search engine. */
  method Transfer(simp: Preprocessor.SimpSolver) returns (core: CdclSolver.Solver)
    requires simp.Valid() && simp.ok
    ensures fresh(core) && core.Valid() && core.decision == seq(|simp.assigns|, _ => true)
    ensures |core.assigns| == |simp.assigns|
    ensures forall a: Sat.Model :: SatAll(a, core.formula) <==> Models(a, simp.S())
  {
    hide CdclSolver.Solver.Valid, Shape, Reconstructs, Recorded, Within, Transferred, Unsat, Models;
    core := EmptyEngine(|simp.assigns|);
    TransferClauses(simp, core);
    TransferFacts(simp, core);
    TransferDone(core.formula, simp.S());
  }

  lemma ClauseVars(simp: Preprocessor.SimpSolver, k: nat)
    requires simp.Valid() && simp.ok && Problem(simp.ca, k)
    ensures forall p :: p in simp.ca[k].lits ==> p.v < |simp.assigns|
  {
    assert ClauseFit(simp.ca[k], |simp.assigns|, simp.eliminated, {});
  }

  lemma FactVars(simp: Preprocessor.SimpSolver, t: nat)
    requires simp.Valid() && simp.ok && t < |simp.trail|
    ensures simp.trail[t].v < |simp.assigns|
  {
    assert simp.trail[t] in simp.trail;
  }

  /** What an answer means for the clauses originally given. */
  ghost predicate Correct(status: LBool, f: Formula, assumptions: seq<Lit>, model: seq<LBool>) {
    && (status == True ==>
          SatAll(TrailModel(model), f) && forall p :: p in assumptions ==> Holds(TrailModel(model), p))
    && (status == False ==> Contradicts(f, assumptions))
  }

  lemma ModelCorrect(f: Formula, recs: seq<Record>, s: Simp, buffer: seq<nat>, gone: seq<bool>, m: seq<LBool>,
                     assumptions: seq<Lit>)
    requires Reconstructs(f, recs, s) && Recorded(recs, buffer, gone) && |m| == |gone| && Within(f, |gone|)
    requires Models(TrailModel(m), s) && forall v :: 0 <= v < |m| ==> m[v] != Undef
    requires forall p :: p in assumptions ==> p.v < |gone| && !gone[p.v] && Holds(TrailModel(m), p)
    ensures Correct(True, f, assumptions, Extend(recs, m))
  {
    ExtendedModel(f, recs, s, m, gone, buffer);
    var e := Extend(recs, m);
    forall p | p in assumptions ensures Holds(TrailModel(e), p) {
      forall k | 0 <= k < |recs| ensures recs[k][0].v != p.v {
        assert recs[k][0].v in Heads(recs);
      }
      ExtendElsewhere(recs, m, p.v);
    }
  }

  lemma RefutedCorrect(f: Formula, recs: seq<Record>, s: Simp, g: Formula, conflict: seq<Lit>, assumptions: seq<Lit>,
                       model: seq<LBool>)
    requires Reconstructs(f, recs, s) && forall a: Sat.Model :: SatAll(a, g) <==> Models(a, s)
    requires Entails(g, conflict) && forall x :: x in conflict ==> Neg(x) in assumptions
    ensures Correct(False, f, assumptions, model)
  {
    ConflictContradicts(g, conflict, assumptions);
    forall a: Sat.Model | SatAll(a, f) ensures exists p :: p in assumptions && !Holds(a, p) {
      assert Models(a, s) && SatAll(a, g);
    }
  }

  lemma UndefCorrect(f: Formula, assumptions: seq<Lit>, model: seq<LBool>)
    ensures Correct(Undef, f, assumptions, model)
  {
  }

  /** With every variable decidable, the engine's model is total. */
  lemma FullModel(core: CdclSolver.Solver, n: nat)
    requires core.Answer(True) && core.decision == seq(n, _ => true)
    ensures |core.model| == n && forall v :: 0 <= v < n ==> core.model[v] != Undef
    ensures SatAll(TrailModel(core.model), core.formula)
    ensures forall p :: p in core.assumptions ==> Holds(TrailModel(core.model), p)
  {
  }

  /** Take over a model of what is left and extend it. */
  method ExtendFound(simp: Preprocessor.SimpSolver, m: seq<LBool>, assumptions: seq<Lit>)
    requires simp.Valid() && simp.ok && |m| == |simp.assigns| && Models(TrailModel(m), simp.S())
    requires forall v :: 0 <= v < |m| ==> m[v] != Undef
    requires forall p :: p in assumptions ==>
               p.v < |simp.assigns| && !simp.eliminated[p.v] && Holds(TrailModel(m), p)
    modifies simp`model
    ensures simp.Valid() && Correct(True, simp.original, assumptions, simp.model)
  {
    hide Shape, Reconstructs, Recorded, Within, Models, Correct, Extend, Settles, Unsat;
    simp.model := m;
    ModelCorrect(simp.original, simp.recs, simp.S(), simp.elimclauses, simp.eliminated, m, assumptions);
    assert |m| == 0 ==> m == AllTrue(|simp.assigns|);
    simp.ExtendModel();
  }

  /** Let the engine solve under assumptions. */
  method Run(core: CdclSolver.Solver, assumptions: seq<Lit>, limits: seq<int>, limited: bool) returns (status: LBool)
    requires core.Valid() && forall p :: p in assumptions ==> p.v < |core.assigns|
    modifies core
    ensures core.formula == old(core.formula) && core.decision == old(core.decision)
    ensures core.Valid() && core.Answer(status) && |core.assigns| == |old(core.assigns)|
    ensures core.assumptions == assumptions && (!limited ==> status != Undef)
  {
    hide CdclSolver.Solver.Valid, CdclSolver.Solver.Answer;
    core.Assume(assumptions);
    status := core.SolveRestarting(limits, limited);
  }

  /** Search what is left under the assumptions, and extend a model found to all variables. */
  method SearchAndExtend(simp: Preprocessor.SimpSolver, assumptions: seq<Lit>, limits: seq<int>, limited: bool)
    returns (status: LBool)
    requires simp.Valid()
    requires simp.ok ==> forall p :: p in assumptions ==> p.v < |simp.assigns| && !simp.eliminated[p.v]
    modifies simp`model
    ensures simp.Valid() && Correct(status, simp.original, assumptions, simp.model)
    ensures !limited ==> status != Undef
  {
    if !simp.ok {
      return False;
    }
    var core := Transfer(simp);
    hide CdclSolver.Solver.Valid, CdclSolver.Solver.Answer, Preprocessor.SimpSolver.Valid, Models, Correct, Unsat;
    status := Run(core, assumptions, limits, limited);
    Conclude(simp, core, status, assumptions);
  }

  /** Carry the engine's answer over to the clauses originally given. */
  method Conclude(simp: Preprocessor.SimpSolver, core: CdclSolver.Solver, status: LBool, assumptions: seq<Lit>)
    requires simp.Valid() && simp.ok && core.Answer(status) && core.assumptions == assumptions
    requires core.decision == seq(|simp.assigns|, _ => true)
    requires forall a: Sat.Model :: SatAll(a, core.formula) <==> Models(a, simp.S())
    requires forall p :: p in assumptions ==> p.v < |simp.assigns| && !simp.eliminated[p.v]
    modifies simp`model
    ensures simp.Valid() && Correct(status, simp.original, assumptions, simp.model)
  {
    hide CdclSolver.Solver.Answer, Preprocessor.SimpSolver.Valid, Models, Correct;
    if status == True {
      FullModel(core, |simp.assigns|);
      ExtendFound(simp, core.model, assumptions);
    } else if status == False {
      Refuted(simp, core, assumptions);
    } else {
      UndefCorrect(simp.original, assumptions, simp.model);
    }
  }

  lemma Refuted(simp: Preprocessor.SimpSolver, core: CdclSolver.Solver, assumptions: seq<Lit>)
    requires simp.Valid() && simp.ok && core.Answer(False) && core.assumptions == assumptions
    requires forall a: Sat.Model :: SatAll(a, core.formula) <==> Models(a, simp.S())
    ensures Correct(False, simp.original, assumptions, simp.model)
  {
    hide Models, Correct, Shape, Recorded;
    RefutedCorrect(simp.original, simp.recs, simp.S(), core.formula, core.conflict, assumptions, simp.model);
  }

  /** Freeze the variables of the assumptions; the result lists those that were not frozen before. */
  method FreezeAssumptions(simp: Preprocessor.SimpSolver, assumptions: seq<Lit>) returns (extra: seq<Var>)
    requires simp.Valid() && forall p :: p in assumptions ==> p.v < |simp.assigns|
    modifies simp`frozen, simp`elimHeap
    ensures simp.Valid() && |simp.frozen| == |old(simp.frozen)|
    ensures forall p :: p in assumptions ==> simp.frozen[p.v]
    ensures forall v :: 0 <= v < |simp.frozen| ==> (simp.frozen[v] <==> old(simp.frozen)[v] || v in extra)
    ensures forall v :: v in extra ==> v < |simp.frozen| && !old(simp.frozen)[v]
  {
    hide Shape, Reconstructs, Recorded, Within;
    extra := [];
    var i := 0;
    while i < |assumptions|
      invariant 0 <= i <= |assumptions| && simp.Valid() && |simp.frozen| == |old(simp.frozen)| == |simp.assigns|
      invariant forall k :: 0 <= k < i ==> simp.frozen[assumptions[k].v]
      invariant forall v :: 0 <= v < |simp.frozen| ==> (simp.frozen[v] <==> old(simp.frozen)[v] || v in extra)
      invariant forall v :: v in extra ==> v < |simp.frozen| && !old(simp.frozen)[v]
    {
      assert assumptions[i] in assumptions;
      var v := assumptions[i].v;
      if !simp.frozen[v] {
        simp.SetFrozen(v, true);
        extra := extra + [v];
      }
      i := i + 1;
    }
  }

  method Unfreeze(simp: Preprocessor.SimpSolver, extra: seq<Var>)
    requires simp.Valid() && forall v :: v in extra ==> v < |simp.assigns|
    modifies simp`frozen, simp`elimHeap
    ensures simp.Valid() && |simp.frozen| == |old(simp.frozen)|
    ensures forall v :: 0 <= v < |simp.frozen| ==> simp.frozen[v] == (old(simp.frozen)[v] && v !in extra)
  {
    hide Shape, Reconstructs, Recorded, Within;
    var i := 0;
    while i < |extra|
      invariant 0 <= i <= |extra| && simp.Valid() && |simp.frozen| == |old(simp.frozen)| == |simp.assigns|
      invariant forall v :: 0 <= v < |simp.frozen| ==> simp.frozen[v] == (old(simp.frozen)[v] && v !in extra[..i])
    {
      assert extra[i] in extra && extra[..i + 1] == extra[..i] + [extra[i]];
      simp.SetFrozen(extra[i], false);
      i := i + 1;
    }
    assert extra[..|extra|] == extra;
  }

  /**
   * Solve under assumptions over variables that have not been eliminated. A positive answer comes with a model of every
   * clause ever given and of the assumptions, a negative one means there is none, and only a budget leaves it open.
   * `limits` says when the search restarts.
   */
  method Solve(simp: Preprocessor.SimpSolver, assumptions: seq<Lit>, doSimp: bool, turnOff: bool, limits: seq<int>,
               limited: bool) returns (status: LBool)
    requires simp.Valid() && forall p :: p in assumptions ==> p.v < |simp.assigns| && !simp.eliminated[p.v]
    modifies simp
    ensures simp.Valid() && simp.original == old(simp.original) && simp.frozen == old(simp.frozen)
    ensures Correct(status, simp.original, assumptions, simp.model) && (!limited ==> status != Undef)
  {
    hide Shape, Reconstructs, Recorded, Within, Correct;
    if !doSimp || !simp.useSimplification {
      status := SearchAndExtend(simp, assumptions, limits, limited);
      return;
    }
    ghost var frozen0 := simp.frozen;
    var extra := FreezeAssumptions(simp, assumptions);
    var few: bool := *;
    var b := simp.Eliminate(turnOff, few);
    status := SearchAndExtend(simp, assumptions, limits, limited);
    Unfreeze(simp, extra);
    assert simp.frozen == frozen0;
  }
}
