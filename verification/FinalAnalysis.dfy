/** Expressing a failed assumption in terms of the decisions that refute it. */
module FinalAnalysis {
  import opened Sat
  import opened SolverState
  import opened Propagation
  import opened Meaning
  import opened Analysis

  /** y is the decision that opened level l + 1. */
  ghost predicate DecisionOf(s: State, y: Lit, l: nat) {
    && l < |s.lim| && s.lim[l] < |s.trail| && s.trail[s.lim[l]] == y
    && y.v < |s.vd| && s.vd[y.v].level == l + 1
  }

  ghost predicate FinalLits(s: State, p: Lit, out: seq<Lit>) {
    forall x :: x in out ==> x == p || exists l: nat :: DecisionOf(s, Neg(x), l)
  }

  /** The marked variables are the open ones; all lie below trail position i. */
  ghost predicate FinalMarks(s: State, seen: seq<bool>, open: set<Var>, p: Lit, i: nat) {
    && |seen| == |s.assigns| == |s.vd| == |s.pos|
    && (forall v :: 0 <= v < |seen| ==> (seen[v] <==> v in open))
    && (forall v :: v in open ==>
          v < |seen| && Assigned(s, v) && s.pos[v] < i && (v == p.v || s.vd[v].level > 0))
  }

  lemma FinalStart(f: Formula, s: State, seen: seq<bool>, p: Lit)
    requires Struct(s) && IsTrue(s.assigns, p) && |seen| == |s.assigns| && forall v :: 0 <= v < |seen| ==> !seen[v]
    ensures FinalMarks(s, seen[p.v := true], {p.v}, p, |s.trail|)
    ensures Pending(f, s, [p], {p.v}, [], 0)
    ensures Assigned(s, p.v) && TrueLit(s, p.v) == p
  {
    assert s.trail[s.pos[p.v]].v == p.v;
    forall a: Model | SatAll(a, f) ensures SatDerived(a, s, [p], {p.v}) {
      if Holds(a, p) {
        assert p in [p];
      } else {
        assert p.v in {p.v} && !Holds(a, TrueLit(s, p.v));
      }
    }
  }

  lemma FinalLitsStart(s: State, p: Lit)
    ensures FinalLits(s, p, [p])
  {
  }

  lemma TrailLimBound(s: State)
    requires Struct(s) && s.lim != []
    ensures s.lim[0] <= |s.trail|
  {
  }

  /** The literal at position i is not marked: move on. */
  lemma FinalSkip(s: State, seen: seq<bool>, open: set<Var>, p: Lit, i: nat)
    requires Struct(s) && FinalMarks(s, seen, open, p, i + 1) && i < |s.trail| && s.trail[i].v < |seen|
    requires !seen[s.trail[i].v]
    ensures FinalMarks(s, seen, open, p, i)
  {
  }

  lemma FinalBounds(s: State, seen: seq<bool>, open: set<Var>, p: Lit, i: nat)
    requires Struct(s) && FinalMarks(s, seen, open, p, i + 1) && i < |s.trail|
    ensures var x := s.trail[i].v; x < |seen| && x < |s.vd| && (seen[x] <==> x in open)
    ensures AtLevel(s.lim, s.vd[s.trail[i].v].level, i)
    ensures Assigned(s, s.trail[i].v) && TrueLit(s, s.trail[i].v) == s.trail[i]
  {
  }

  /** Taking the mark off position i. */
  lemma FinalUnmark(s: State, seen: seq<bool>, open: set<Var>, p: Lit, i: nat)
    requires Struct(s) && FinalMarks(s, seen, open, p, i + 1) && i < |s.trail| && s.trail[i].v in open
    ensures FinalMarks(s, seen[s.trail[i].v := false], open - {s.trail[i].v}, p, i)
  {
    hide Struct;
    var x := s.trail[i].v;
    forall v | v in open && v != x ensures s.pos[v] < i {
      assert s.trail[s.pos[v]].v == v;
    }
  }

  lemma FinalSplit(f: Formula, s: State, open: set<Var>, out: seq<Lit>, y: Lit)
    requires Pending(f, s, out, open, [], 0)
    requires Assigned(s, y.v) && TrueLit(s, y.v) == y
    ensures Pending(f, s, out + [Neg(y)], open - {y.v}, [], 0)
  {
    var out' := out + [Neg(y)];
    forall a: Model | SatAll(a, f) ensures SatDerived(a, s, out', open - {y.v}) {
      assert SatDerived(a, s, out, open) by { assert !SatFrom(a, [], 0); }
      if SatClause(a, out) {
        var x :| x in out && Holds(a, x);
        assert x in out';
      } else if Holds(a, y) {
        var v :| v in open && Assigned(s, v) && !Holds(a, TrueLit(s, v));
        assert v in open - {y.v};
      } else {
        assert out'[|out|] in out' && Holds(a, Neg(y));
      }
    }
  }

  /** A decision joins the conflict clause. */
  lemma FinalDecision(f: Formula, s: State, seen: seq<bool>, open: set<Var>, p: Lit, out: seq<Lit>, i: nat)
    requires Struct(s) && FinalMarks(s, seen, open, p, i + 1) && i < |s.trail| && s.trail[i].v in open
    requires s.lim != [] && s.lim[0] <= i && s.trail[i].v < |s.vd| && s.vd[s.trail[i].v].reason == CREF_UNDEF
    requires Pending(f, s, out, open, [], 0) && FinalLits(s, p, out)
    ensures s.trail[i].v < |seen| && FinalMarks(s, seen[s.trail[i].v := false], open - {s.trail[i].v}, p, i)
    ensures Pending(f, s, out + [Neg(s.trail[i])], open - {s.trail[i].v}, [], 0)
    ensures FinalLits(s, p, out + [Neg(s.trail[i])])
  {
    var y := s.trail[i];
    FinalBounds(s, seen, open, p, i);
    FinalUnmark(s, seen, open, p, i);
    FinalSplit(f, s, open, out, y);
    hide Pending, FinalMarks;
    var l := s.vd[y.v].level;
    assert l > 0 && s.lim[l - 1] == i;
    assert Neg(Neg(y)) == y;
    assert DecisionOf(s, Neg(Neg(y)), l - 1);
  }

  /** The reason of the literal at position i takes its place. */
  lemma FinalResolve(f: Formula, s: State, seen: seq<bool>, open: set<Var>, p: Lit, out: seq<Lit>, i: nat)
    requires Struct(s) && Means(f, s) && FinalMarks(s, seen, open, p, i + 1) && i < |s.trail|
    requires s.trail[i].v in open && s.trail[i].v < |s.vd| && s.vd[s.trail[i].v].reason != CREF_UNDEF
    requires Pending(f, s, out, open, [], 0)
    ensures s.trail[i].v < |seen| && FinalMarks(s, seen[s.trail[i].v := false], open - {s.trail[i].v}, p, i)
    ensures var cr := s.vd[s.trail[i].v].reason;
            ReasonAt(s.ca, s.assigns, s.pos, s.trail[i], cr, i)
            && Pending(f, s, out, open - {s.trail[i].v}, s.ca[cr].lits, 1)
  {
    var y := s.trail[i];
    FinalBounds(s, seen, open, p, i);
    FinalUnmark(s, seen, open, p, i);
    assert ReasonAt(s.ca, s.assigns, s.pos, y, s.vd[y.v].reason, i);
    assert open - {y.v} + {y.v} == open;
    hide Struct, FinalMarks, Pending, Means;
    PendingResolve(f, s, out, open - {y.v}, y, s.vd[y.v].reason, []);
  }

  /** One antecedent: marked when above level 0, dropped otherwise. */
  lemma FinalMark(f: Formula, s: State, seen: seq<bool>, open: set<Var>, p: Lit, out: seq<Lit>, c: seq<Lit>,
                  j: nat, i: nat)
    requires Struct(s) && Means(f, s) && FinalMarks(s, seen, open, p, i)
    requires j < |c| && IsFalse(s.assigns, c[j]) && c[j].v < |s.pos| && s.pos[c[j].v] < i
    requires Pending(f, s, out, open, c, j)
    ensures c[j].v < |s.vd| && c[j].v < |seen|
    ensures if s.vd[c[j].v].level > 0 then
              FinalMarks(s, seen[c[j].v := true], open + {c[j].v}, p, i)
              && Pending(f, s, out, open + {c[j].v}, c, j + 1)
            else
              FinalMarks(s, seen, open, p, i) && Pending(f, s, out, open, c, j + 1)
  {
    var q := c[j];
    FalseAssigned(s, q);
    if s.vd[q.v].level > 0 {
      PendingOpen(f, s, out, open, c, j);
    } else {
      RootFalse(f, s, q);
      forall a: Model | SatAll(a, f) ensures SatDerived(a, s, out, open) || SatFrom(a, c, j + 1) {
        UnitHolds(f, Neg(q), a);
        if SatFrom(a, c, j) {
          var k :| j <= k < |c| && Holds(a, c[k]);
          assert k != j;
        }
      }
    }
  }

  /** At the bottom of the first level only p itself can still be marked, and then it is a level-0 fact. */
  lemma FinalEnd(f: Formula, s: State, seen: seq<bool>, open: set<Var>, p: Lit, out: seq<Lit>)
    requires Struct(s) && Means(f, s) && s.lim != [] && FinalMarks(s, seen, open, p, s.lim[0])
    requires Pending(f, s, out, open, [], 0) && p in out && IsTrue(s.assigns, p)
    ensures Entails(f, out)
    ensures p.v < |seen| == |s.assigns| && forall v :: 0 <= v < |seen| && v != p.v ==> !seen[v]
  {
    forall v | v in open ensures v == p.v {
      assert AtLevel(s.lim, s.vd[v].level, s.pos[v]);
    }
    assert s.trail[s.pos[p.v]].v == p.v;
    forall a: Model | SatAll(a, f) ensures SatClause(a, out) {
      assert SatDerived(a, s, out, open) by { assert !SatFrom(a, [], 0); }
      if !SatClause(a, out) {
        assert AtLevel(s.lim, s.vd[p.v].level, s.pos[p.v]);
        RootFalse(f, s, Neg(p));
        assert Neg(Neg(p)) == p;
        UnitHolds(f, p, a);
      }
    }
  }

  /** Without decisions, p is itself a consequence of the formula. */
  lemma FinalRoot(f: Formula, s: State, p: Lit)
    requires Struct(s) && Means(f, s) && s.lim == [] && IsTrue(s.assigns, p)
    ensures Entails(f, [p]) && FinalLits(s, p, [p])
  {
    assert s.trail[s.pos[p.v]].v == p.v;
    RootFalse(f, s, Neg(p));
    assert Neg(Neg(p)) == p;
  }

  // ---------------------------------------------------------------- which decisions it names

  /** The variables above level 0 of literals 1..j of a clause. */
  ghost function Antecedents(c: seq<Lit>, vd: seq<VarData>, j: nat): set<Var> {
    set k | 1 <= k < j && k < |c| && c[k].v < |vd| && vd[c[k].v].level > 0 :: c[k].v
  }

  lemma AntecedentsNone(vs: set<Var>, c: seq<Lit>, vd: seq<VarData>)
    ensures vs + Antecedents(c, vd, 1) == vs
  {
  }

  lemma TailLits(c: seq<Lit>, assigns: seq<LBool>, pos: seq<nat>, i: nat)
    requires TailFalse(c, assigns, pos, i)
    ensures forall k :: 1 <= k < |c| ==> IsFalse(assigns, c[k]) && c[k].v < |pos| && pos[c[k].v] < i
  {
  }

  lemma AntecedentsStep(vs: set<Var>, c: seq<Lit>, vd: seq<VarData>, j: nat)
    requires 1 <= j < |c| && c[j].v < |vd|
    ensures vs + Antecedents(c, vd, j + 1) ==
            vs + Antecedents(c, vd, j) + if vd[c[j].v].level > 0 then {c[j].v} else {}
  {
  }

  /** The reason of v mentions u, above level 0. */
  ghost predicate Needs(s: State, v: Var, u: Var) {
    && v < |s.vd| && 0 <= s.vd[v].reason < |s.ca|
    && var c := s.ca[s.vd[v].reason].lits;
    u in Antecedents(c, s.vd, |c|)
  }

  /** A chain of variables, each needed by the one before. */
  ghost predicate Chain(s: State, path: seq<Var>) {
    path != [] && forall k :: 0 <= k < |path| - 1 ==> Needs(s, path[k], path[k + 1])
  }

  /** The value of v depends on that of u. */
  ghost predicate DependsOn(s: State, v: Var, u: Var) {
    exists path :: Chain(s, path) && path[0] == v && path[|path| - 1] == u
  }

  lemma DependsSelf(s: State, v: Var)
    ensures DependsOn(s, v, v)
  {
    assert Chain(s, [v]);
  }

  lemma DependsStep(s: State, v: Var, u: Var, w: Var)
    requires DependsOn(s, v, u) && Needs(s, u, w)
    ensures DependsOn(s, v, w)
  {
    var path :| Chain(s, path) && path[0] == v && path[|path| - 1] == u;
    var longer := path + [w];
    forall k | 0 <= k < |longer| - 1 ensures Needs(s, longer[k], longer[k + 1]) {
      if k < |path| - 1 {
        assert Needs(s, path[k], path[k + 1]);
      }
    }
    assert Chain(s, longer);
  }

  /** A true literal above level 0 without a reason. */
  ghost predicate Decided(s: State, y: Lit) {
    IsTrue(s.assigns, y) && y.v < |s.vd| && s.vd[y.v].reason == CREF_UNDEF && s.vd[y.v].level > 0
  }

  /** y is a decision that the value of v depends on. */
  ghost predicate NamedDecision(s: State, v: Var, y: Lit) {
    DependsOn(s, v, y.v) && Decided(s, y)
  }

  /** The final conflict is p and the complements of exactly the decisions that p depends on. */
  ghost predicate ConflictExact(s: State, p: Lit, out: seq<Lit>) {
    && p in out
    && (forall x :: x in out ==> x == p || NamedDecision(s, p.v, Neg(x)))
    && (forall y :: NamedDecision(s, p.v, y) ==> Neg(y) in out)
  }

  /** Everything marked so far is something p depends on, and what has been unmarked is accounted for. */
  ghost predicate Tracing(s: State, p: Lit, out: seq<Lit>, open: set<Var>, done: set<Var>) {
    && p.v in open + done && p in out
    && (forall v :: v in open + done ==> DependsOn(s, p.v, v))
    && (forall v, u :: v in done && Needs(s, v, u) ==> u in open + done)
    && (forall x :: x in out ==> x == p || NamedDecision(s, p.v, Neg(x)))
    && (forall y: Lit :: y.v in done && Decided(s, y) ==> Neg(y) in out)
  }

  lemma TraceStart(s: State, p: Lit)
    ensures Tracing(s, p, [p], {p.v}, {})
  {
    DependsSelf(s, p.v);
  }

  lemma TraceDecision(s: State, p: Lit, out: seq<Lit>, open: set<Var>, done: set<Var>, i: nat)
    requires Struct(s) && Tracing(s, p, out, open, done) && i < |s.trail| && s.trail[i].v in open
    requires s.lim != [] && s.lim[0] <= i && s.trail[i].v < |s.vd| && s.vd[s.trail[i].v].reason == CREF_UNDEF
    ensures Tracing(s, p, out + [Neg(s.trail[i])], open - {s.trail[i].v}, done + {s.trail[i].v})
  {
    var y := s.trail[i];
    var out', open', done' := out + [Neg(y)], open - {y.v}, done + {y.v};
    assert open' + done' == open + done;
    assert AtLevel(s.lim, s.vd[y.v].level, i);
    assert Decided(s, y) && Neg(Neg(y)) == y;
    assert NamedDecision(s, p.v, y) && out'[|out|] == Neg(y);
    forall z: Lit | z.v in done' && Decided(s, z) ensures Neg(z) in out' {
      assert z.v == y.v ==> z == y;
    }
  }

  lemma TraceResolve(s: State, p: Lit, out: seq<Lit>, open: set<Var>, done: set<Var>, i: nat, open': set<Var>)
    requires Struct(s) && Tracing(s, p, out, open, done) && i < |s.trail| && s.trail[i].v in open
    requires s.trail[i].v < |s.vd| && 0 <= s.vd[s.trail[i].v].reason < |s.ca|
    requires var c := s.ca[s.vd[s.trail[i].v].reason].lits;
             open' == open - {s.trail[i].v} + Antecedents(c, s.vd, |c|)
    ensures Tracing(s, p, out, open', done + {s.trail[i].v})
  {
    var x := s.trail[i].v;
    NeedsExactly(s, x);
    hide DependsOn, Antecedents, Needs, Struct;
    forall v | v in open' + (done + {x}) ensures DependsOn(s, p.v, v) {
      if v !in open + done {
        DependsStep(s, p.v, x, v);
      }
    }
    StillClosed(s, open, done, x, open');
  }

  lemma NeedsExactly(s: State, x: Var)
    requires x < |s.vd| && 0 <= s.vd[x].reason < |s.ca|
    ensures var c := s.ca[s.vd[x].reason].lits; forall u :: Needs(s, x, u) <==> u in Antecedents(c, s.vd, |c|)
  {
    hide Antecedents;
  }

  lemma StillClosed(s: State, open: set<Var>, done: set<Var>, x: Var, open': set<Var>)
    requires forall v, u :: v in done && Needs(s, v, u) ==> u in open + done
    requires open - {x} <= open' && forall u :: Needs(s, x, u) ==> u in open'
    ensures forall v, u :: v in done + {x} && Needs(s, v, u) ==> u in open' + (done + {x})
  {
    hide Needs;
    forall v, u | v in done + {x} && Needs(s, v, u) ensures u in open' + (done + {x}) {
      assert v in done ==> u in open + done;
    }
  }

  /** At the bottom of the first level nothing above level 0 is open, so all that p depends on has been met. */
  lemma TraceEnd(s: State, seen: seq<bool>, p: Lit, out: seq<Lit>, open: set<Var>, done: set<Var>)
    requires Struct(s) && s.lim != [] && Tracing(s, p, out, open, done) && FinalMarks(s, seen, open, p, s.lim[0])
    ensures ConflictExact(s, p, out)
  {
    forall v | v in open ensures s.vd[v].level == 0 {
      RootAssigned(s, v);
    }
    forall y | NamedDecision(s, p.v, y) ensures Neg(y) in out {
      var path :| Chain(s, path) && path[0] == p.v && path[|path| - 1] == y.v;
      ChainMet(s, seen, p, out, open, done, path);
    }
  }

  lemma {:induction false} ChainMet(s: State, seen: seq<bool>, p: Lit, out: seq<Lit>, open: set<Var>, done: set<Var>,
                                    path: seq<Var>)
    requires Struct(s) && s.lim != [] && Tracing(s, p, out, open, done) && FinalMarks(s, seen, open, p, s.lim[0])
    requires Chain(s, path) && path[0] == p.v
    ensures path[|path| - 1] in open + done
    decreases |path|
  {
    if |path| > 1 {
      var shorter, v, u := path[..|path| - 1], path[|path| - 2], path[|path| - 1];
      forall k | 0 <= k < |shorter| - 1 ensures Needs(s, shorter[k], shorter[k + 1]) {
        assert Needs(s, path[k], path[k + 1]);
      }
      ChainMet(s, seen, p, out, open, done, shorter);
      if v in open {
        RootNeedsNothing(s, v, u);
      }
    }
  }

  lemma RootAssigned(s: State, v: Var)
    requires Struct(s) && Assigned(s, v) && (s.lim == [] || s.pos[v] < s.lim[0])
    ensures s.vd[v].level == 0
  {
    assert s.trail[s.pos[v]].v == v;
    assert AtLevel(s.lim, s.vd[v].level, s.pos[v]);
  }

  /** The antecedents of a level-0 fact are level-0 facts. */
  lemma RootNeedsNothing(s: State, v: Var, u: Var)
    requires Struct(s) && s.lim != [] && Assigned(s, v) && s.pos[v] < s.lim[0]
    ensures !Needs(s, v, u)
  {
    var i := s.pos[v];
    assert s.trail[i].v == v;
    if 0 <= s.vd[v].reason < |s.ca| {
      var c := s.ca[s.vd[v].reason].lits;
      assert ReasonAt(s.ca, s.assigns, s.pos, s.trail[i], s.vd[v].reason, i);
      forall k | 1 <= k < |c| ensures c[k].v < |s.vd| && s.vd[c[k].v].level == 0 {
        FalseAssigned(s, c[k]);
        RootAssigned(s, c[k].v);
      }
    }
  }

  /** At level 0 there are no decisions. */
  lemma TraceRoot(s: State, p: Lit)
    requires Struct(s) && s.lim == []
    ensures ConflictExact(s, p, [p])
  {
    forall y | IsTrue(s.assigns, y) ensures s.vd[y.v].level == 0 {
      RootAssigned(s, y.v);
    }
  }

  lemma PendingEmpty(f: Formula, s: State, out: seq<Lit>, open: set<Var>, c: seq<Lit>, j: nat)
    requires Pending(f, s, out, open, c, j) && j >= |c|
    ensures Pending(f, s, out, open, [], 0)
  {
    forall a: Model | SatAll(a, f) ensures SatDerived(a, s, out, open) {
      assert !SatFrom(a, c, j);
    }
  }
}
