/** What holds between the steps of `search`. */
module SearchState {
  import opened Sat
  import opened SolverState
  import opened Propagation
  import opened Meaning
  import opened WatchClean
  import opened Backtracking
  import opened Analysis
  import opened FinalAnalysis
  import opened Learning
  import opened Powers
  import opened Progress

  // ---------------------------------------------------------------- clause lists

  ghost predicate DistinctRefs(cs: seq<CRef>) {
    forall i, j :: 0 <= i < j < |cs| ==> cs[i] != cs[j]
  }

  /** The two clause lists hold exactly the live clauses, each once, sorted by kind. */
  ghost predicate ListsOk(ca: Region, clauses: seq<CRef>, learnts: seq<CRef>) {
    && DistinctRefs(clauses) && DistinctRefs(learnts)
    && (forall cr :: cr in clauses ==> Live(ca, cr) && !ca[cr].learnt)
    && (forall cr :: cr in learnts ==> Live(ca, cr) && ca[cr].learnt)
    && (forall cr :: Live(ca, cr) ==> cr in clauses || cr in learnts)
  }

  lemma ListsSame(ca: Region, cb: Region, clauses: seq<CRef>, learnts: seq<CRef>)
    requires ListsOk(ca, clauses, learnts) && SameDb(ca, cb)
    ensures ListsOk(cb, clauses, learnts) && |cb| == |ca|
  {
    forall cr | Live(cb, cr) ensures cr in clauses || cr in learnts {
      assert Live(ca, cr);
    }
  }

  lemma ListsAdd(ca: Region, clauses: seq<CRef>, learnts: seq<CRef>, c: seq<Lit>, learnt: bool)
    requires ListsOk(ca, clauses, learnts)
    ensures var ca' := ca + [Clause(c, learnt, 0)];
            if learnt then ListsOk(ca', clauses, learnts + [|ca|]) else ListsOk(ca', clauses + [|ca|], learnts)
  {
    var ca' := ca + [Clause(c, learnt, 0)];
    forall cr | Live(ca', cr) && cr != |ca| ensures cr in clauses || cr in learnts {
      assert Live(ca, cr);
    }
    assert |ca| !in clauses && |ca| !in learnts;
  }

  // ---------------------------------------------------------------- assumptions and levels

  /** The first levels belong to the assumptions, in order. */
  ghost predicate AssumptionsOk(s: State, assumptions: seq<Lit>) {
    && (forall l: nat, y :: DecisionOf(s, y, l) && l < |assumptions| ==> y == assumptions[l])
    && (forall l: nat :: l < |s.lim| && l < |assumptions| ==>
          var p := assumptions[l];
          IsTrue(s.assigns, p) && p.v < |s.vd| && s.vd[p.v].level <= l + 1)
  }

  /** Every level past the assumptions has a literal of its own. */
  ghost predicate LevelsOk(lim: seq<nat>, size: nat, n: nat) {
    && (forall l: nat :: l < |lim| ==> lim[l] + n >= l)
    && size + n >= |lim|
  }

  /** An enqueued literal that is not a decision disturbs no assumption level. */
  lemma AssumptionsEnqueue(s: State, p: Lit, r: CRef, assumptions: seq<Lit>)
    requires Struct(s) && AssumptionsOk(s, assumptions) && IsUndef(s.assigns, p)
    requires s.lim == [] || LastLim(s.lim) < |s.trail|
    ensures AssumptionsOk(Enqueued(s, p, r), assumptions)
  {
    var s' := Enqueued(s, p, r);
    forall l: nat, y | DecisionOf(s', y, l) && l < |assumptions| ensures y == assumptions[l] {
      assert s.lim[l] <= LastLim(s.lim);
      assert DecisionOf(s, y, l);
    }
  }

  /** Propagation only adds literals to a level that already has its decision. */
  lemma AssumptionsExtend(s: State, t: State, assumptions: seq<Lit>)
    requires Struct(s) && Struct(t) && AssumptionsOk(s, assumptions)
    requires s.trail <= t.trail && s.lim == t.lim && |s.assigns| == |t.assigns|
    requires s.lim == [] || LastLim(s.lim) < |s.trail|
    ensures AssumptionsOk(t, assumptions)
  {
    forall l: nat, y | DecisionOf(t, y, l) && l < |assumptions| ensures y == assumptions[l] {
      ExtendDecision(s, t, y, l);
    }
    forall l: nat | l < |t.lim| && l < |assumptions|
      ensures var p := assumptions[l];
              IsTrue(t.assigns, p) && p.v < |t.vd| && t.vd[p.v].level <= l + 1
    {
      ExtendTrue(s, t, assumptions[l]);
    }
  }

  lemma ExtendDecision(s: State, t: State, y: Lit, l: nat)
    requires Struct(s) && Struct(t) && s.trail <= t.trail && s.lim == t.lim
    requires s.lim == [] || LastLim(s.lim) < |s.trail|
    requires DecisionOf(t, y, l)
    ensures DecisionOf(s, y, l)
  {
    var i := s.lim[l];
    assert i <= LastLim(s.lim);
    hide TrailOk, ReasonOk, DbOk, WatchKeys, WatchSound, WatchComplete, AtLevel;
    SameLevel(s, t, i);
  }

  lemma ExtendTrue(s: State, t: State, p: Lit)
    requires Struct(s) && Struct(t) && s.trail <= t.trail && s.lim == t.lim && |s.assigns| == |t.assigns|
    requires IsTrue(s.assigns, p)
    ensures IsTrue(t.assigns, p) && p.v < |t.vd| && p.v < |s.vd| && t.vd[p.v].level == s.vd[p.v].level
  {
    hide ReasonOk, DbOk, WatchKeys, WatchSound, WatchComplete, AtLevel;
    var i := s.pos[p.v];
    assert s.trail[i].v == p.v;
    assert t.trail[i] == s.trail[i] == p;
    SameLevel(s, t, i);
  }

  /** The level of a trail position is fixed by the level boundaries. */
  lemma SameLevel(s: State, t: State, i: nat)
    requires LimOk(s.lim, |s.trail|) && LevelOk(s.trail, s.lim, s.vd) && LevelOk(t.trail, t.lim, t.vd)
    requires s.trail <= t.trail && s.lim == t.lim && i < |s.trail|
    ensures s.trail[i] == t.trail[i] && s.trail[i].v < |s.vd| && t.trail[i].v < |t.vd|
    ensures s.vd[s.trail[i].v].level == t.vd[t.trail[i].v].level
  {
    assert s.trail[i] == t.trail[i];
    OneLevel(s.lim, |s.trail|, s.vd[s.trail[i].v].level, t.vd[t.trail[i].v].level, i);
  }

  lemma OneLevel(lim: seq<nat>, size: nat, k: nat, m: nat, i: nat)
    requires LimOk(lim, size) && AtLevel(lim, k, i) && AtLevel(lim, m, i)
    ensures k == m
  {
  }

  lemma AssumptionsCancel(s: State, level: nat, assumptions: seq<Lit>)
    requires Struct(s) && AssumptionsOk(s, assumptions) && level < |s.lim|
    ensures AssumptionsOk(Cancelled(s, level), assumptions)
  {
    var s' := Cancelled(s, level);
    CancelAssigns(s, level);
    forall l: nat, y | DecisionOf(s', y, l) && l < |assumptions| ensures y == assumptions[l] {
      assert DecisionOf(s, y, l);
    }
  }

  /** Open a level whose assumption already holds, or whose literal is about to be decided. */
  function NewLevel(s: State): State {
    s.(lim := s.lim + [|s.trail|])
  }

  lemma NewLevelStruct(s: State)
    requires Struct(s)
    ensures Struct(NewLevel(s))
  {
    var s' := NewLevel(s);
    forall i | 0 <= i < |s'.trail|
      ensures s'.trail[i].v < |s'.vd| && AtLevel(s'.lim, s'.vd[s'.trail[i].v].level, i)
    {
      assert AtLevel(s.lim, s.vd[s.trail[i].v].level, i);
    }
  }

  lemma NewLevelMeans(f: Formula, s: State)
    requires Struct(s) && Means(f, s)
    ensures Means(f, NewLevel(s))
  {
    assert Facts(NewLevel(s)) == Facts(s);
  }

  lemma AssumptionsDummy(s: State, assumptions: seq<Lit>)
    requires Struct(s) && AssumptionsOk(s, assumptions) && |s.lim| < |assumptions|
    requires IsTrue(s.assigns, assumptions[|s.lim|])
    ensures AssumptionsOk(NewLevel(s), assumptions)
  {
    hide ReasonOk, DbOk, WatchKeys, WatchSound, WatchComplete;
    var s' := NewLevel(s);
    var p := assumptions[|s.lim|];
    assert s.trail[s.pos[p.v]].v == p.v;
    assert AtLevel(s.lim, s.vd[p.v].level, s.pos[p.v]);
    hide Struct;
    forall l: nat, y | DecisionOf(s', y, l) && l < |assumptions| ensures y == assumptions[l] {
      assert DecisionOf(s, y, l);
    }
  }

  /** Decide p on a fresh level: an assumption if there is one for that level. */
  lemma AssumptionsDecide(s: State, p: Lit, assumptions: seq<Lit>)
    requires Struct(s) && AssumptionsOk(s, assumptions) && IsUndef(s.assigns, p)
    requires |s.lim| < |assumptions| ==> p == assumptions[|s.lim|]
    ensures AssumptionsOk(Enqueued(NewLevel(s), p, CREF_UNDEF), assumptions)
  {
    var s' := Enqueued(NewLevel(s), p, CREF_UNDEF);
    hide ReasonOk, DbOk, WatchKeys, WatchSound, WatchComplete;
    forall l: nat, y | DecisionOf(s', y, l) && l < |assumptions| ensures y == assumptions[l] {
      if l < |s.lim| {
        if s.lim[l] < |s.trail| {
          assert DecisionOf(s, y, l);
        }
      }
    }
  }

  // ---------------------------------------------------------------- models

  /** With every variable assigned and everything propagated, every live clause has a true literal. */
  lemma FullSatisfies(s: State, cr: CRef)
    requires Struct(s) && WatchInv(s.ca, s.watches, s.assigns, s.vd, s.pos, |s.trail|)
    requires (forall v :: 0 <= v < |s.assigns| ==> s.assigns[v] != Undef) && Live(s.ca, cr)
    ensures SatClause(TrailModel(s.assigns), s.ca[cr].lits)
  {
    var c := s.ca[cr].lits;
    PropagatedUnitFree(s);
    assert ClauseOk(c, |s.assigns|);
    hide Struct, WatchInv;
    if !OthersFalse(c, 0, s.assigns) {
      var i :| 0 <= i < |c| && i != 0 && !IsFalse(s.assigns, c[i]);
      assert c[i] in c && Holds(TrailModel(s.assigns), c[i]);
    } else {
      assert c[0] in c && Holds(TrailModel(s.assigns), c[0]);
    }
  }

  /** A full trail is a model of the formula and of the assumptions. */
  lemma FullModel(f: Formula, s: State, assumptions: seq<Lit>)
    requires Struct(s) && Means(f, s) && WatchInv(s.ca, s.watches, s.assigns, s.vd, s.pos, |s.trail|)
    requires forall v :: 0 <= v < |s.assigns| ==> s.assigns[v] != Undef
    requires AssumptionsOk(s, assumptions) && |s.lim| >= |assumptions|
    ensures SatAll(TrailModel(s.assigns), f)
    ensures forall p :: p in assumptions ==> Holds(TrailModel(s.assigns), p)
  {
    var a := TrailModel(s.assigns);
    forall cr | Live(s.ca, cr) ensures SatClause(a, s.ca[cr].lits) {
      FullSatisfies(s, cr);
    }
    forall p | p in Facts(s) ensures Holds(a, p) {
      var i :| 0 <= i < |Facts(s)| && Facts(s)[i] == p;
      assert IsTrue(s.assigns, s.trail[i]);
    }
    assert SatDb(a, s.ca, Facts(s));
  }

  /** The final conflict speaks of assumptions only. */
  lemma ConflictAssumptions(s: State, p: Lit, out: seq<Lit>, assumptions: seq<Lit>)
    requires AssumptionsOk(s, assumptions) && FinalLits(s, p, out)
    requires |s.lim| < |assumptions| && Neg(p) in assumptions
    ensures forall x :: x in out ==> Neg(x) in assumptions
  {
    forall x | x in out ensures Neg(x) in assumptions {
      if x != p {
        var l: nat :| DecisionOf(s, Neg(x), l);
        assert Neg(x) == assumptions[l];
      }
    }
  }

  // ---------------------------------------------------------------- progress

  /** The progress made so far, as a number. */
  function Score(lim: seq<nat>, size: nat, n: nat, k: nat): nat
    requires |lim| <= k
  {
    Digits(lim, 0, size, n + 2, k)
  }

  lemma ScoreBound(lim: seq<nat>, size: nat, n: nat, k: nat)
    requires |lim| <= k && LimOk(lim, size) && size <= n
    ensures Score(lim, size, n, k) < Pow(n + 2, k + 1)
  {
    DigitsBound(lim, 0, size, n + 2, k);
  }

  lemma ScoreGrow(lim: seq<nat>, size: nat, size': nat, n: nat, k: nat)
    requires |lim| <= k && LimOk(lim, size) && size <= size'
    ensures Score(lim, size, n, k) <= Score(lim, size', n, k)
    ensures size < size' ==> Score(lim, size, n, k) < Score(lim, size', n, k)
  {
    if size < size' {
      DigitsGrow(lim, 0, size, size', n + 2, k);
    }
  }

  lemma ScorePush(lim: seq<nat>, size: nat, n: nat, k: nat)
    requires |lim| < k && LimOk(lim, size)
    ensures Score(lim, size, n, k) < Score(lim + [size], size, n, k)
  {
    DigitsPush(lim, 0, size, n + 2, k);
  }

  lemma ScoreBackjump(lim: seq<nat>, size: nat, l: nat, n: nat, k: nat)
    requires |lim| <= k && LimOk(lim, size) && size <= n && l < |lim|
    ensures Score(lim, size, n, k) < Score(lim[..l], lim[l] + 1, n, k)
  {
    DigitsBackjump(lim, 0, size, l, n + 2, k);
  }

  // ---------------------------------------------------------------- attaching

  lemma AttachedFields(s: State, c: seq<Lit>, learnt: bool)
    requires |c| >= 2 && Neg(c[0]) in s.watches && Neg(c[1]) in s.watches && c[0] != c[1]
    ensures var s' := Attached(s, c, learnt);
            && s'.assigns == s.assigns && s'.trail == s.trail && s'.lim == s.lim && s'.vd == s.vd && s'.pos == s.pos
            && s'.ca == s.ca + [Clause(c, learnt, 0)]
  {
  }

  lemma AssumptionsFields(s: State, t: State, assumptions: seq<Lit>)
    requires AssumptionsOk(s, assumptions)
    requires s.assigns == t.assigns && s.trail == t.trail && s.lim == t.lim && s.vd == t.vd
    ensures AssumptionsOk(t, assumptions)
  {
    forall l: nat, y | DecisionOf(t, y, l) && l < |assumptions| ensures y == assumptions[l] {
      assert DecisionOf(s, y, l);
    }
  }

  lemma LearntAssumptions(s: State, c: seq<Lit>, assumptions: seq<Lit>)
    requires Struct(s) && UnitUnder(s, c) && |c| >= 2
    requires s.lim == [] || LastLim(s.lim) < |s.trail|
    requires Neg(c[0]) in s.watches && Neg(c[1]) in s.watches && c[0] != c[1]
    requires AssumptionsOk(Attached(s, c, true), assumptions)
    ensures AssumptionsOk(Enqueued(Attached(s, c, true), c[0], |s.ca|), assumptions)
  {
    LearntReason(s, c);
    AttachStruct(s, c, true);
    AssumptionsEnqueue(Attached(s, c, true), c[0], |s.ca|, assumptions);
  }

  lemma AttachDirty(s: State, c: seq<Lit>, learnt: bool, dirty: set<Lit>, dirties: seq<Lit>)
    requires Struct(s) && ClauseOk(c, |s.assigns|) && DirtyOk(s.ca, s.watches, dirty, dirties)
    requires Neg(c[0]) in s.watches && Neg(c[1]) in s.watches && c[0] != c[1]
    ensures var s' := Attached(s, c, learnt); DirtyOk(s'.ca, s'.watches, dirty, dirties)
  {
    var s' := Attached(s, c, learnt);
    forall p, j | p in s'.watches && 0 <= j < |s'.watches[p]| && !Live(s'.ca, s'.watches[p][j].cref)
      ensures p in dirty
    {
      AttachedLists(s, c, learnt, p);
      assert j < |s.watches[p]| && s'.watches[p][j] == s.watches[p][j];
      assert WatcherOk(s.ca, p, s.watches[p][j]);
      assert !Live(s.ca, s.watches[p][j].cref);
    }
  }

  /** The state after attaching the learnt clause and asserting its first literal. */
  function LearntState(s: State, c: seq<Lit>): State
    requires |c| >= 2 && Neg(c[0]) in s.watches && Neg(c[1]) in s.watches && c[0] != c[1]
    requires c[0].v < |s.assigns| && c[0].v < |s.vd| && c[0].v < |s.pos|
  {
    Enqueued(Attached(s, c, true), c[0], |s.ca|)
  }

  /** Everything that holds before the learnt clause is asserted holds after it. */
  lemma LearntKeeps(f: Formula, s: State, c: seq<Lit>, q: nat, dirty: set<Lit>, dirties: seq<Lit>,
                    clauses: seq<CRef>, learnts: seq<CRef>)
    requires Struct(s) && Means(f, s) && UnitUnder(s, c) && |c| >= 2 && Entails(f, c)
    requires q <= |s.trail| && WatchInv(s.ca, s.watches, s.assigns, s.vd, s.pos, q)
    requires DirtyOk(s.ca, s.watches, dirty, dirties) && ListsOk(s.ca, clauses, learnts)
    ensures Neg(c[0]) in s.watches && Neg(c[1]) in s.watches && c[0] != c[1]
    ensures c[0].v < |s.assigns| && c[0].v < |s.vd| && c[0].v < |s.pos|
    ensures var s' := LearntState(s, c);
            && Struct(s') && Means(f, s')
            && WatchInv(s'.ca, s'.watches, s'.assigns, s'.vd, s'.pos, q)
            && DirtyOk(s'.ca, s'.watches, dirty, dirties) && ListsOk(s'.ca, clauses, learnts + [|s.ca|])
  {
    hide Struct, SemOk, Facts, WatchInv, AssumptionsOk, DirtyOk, ListsOk, Entails, UnitUnder, Enqueueable, ClauseOk;
    LearntReason(s, c);
    LearntWatchInv(s, c, q);
    LearntMeans(f, s, c);
    EnqueueStruct(Attached(s, c, true), c[0], |s.ca|);
    AttachDirty(s, c, true, dirty, dirties);
    ListsAdd(s.ca, clauses, learnts, c, true);
  }

  lemma LearntStateAssumptions(s: State, c: seq<Lit>, assumptions: seq<Lit>)
    requires Struct(s) && UnitUnder(s, c) && |c| >= 2 && AssumptionsOk(s, assumptions)
    requires s.lim == [] || LastLim(s.lim) < |s.trail|
    requires Neg(c[0]) in s.watches && Neg(c[1]) in s.watches && c[0] != c[1]
    requires c[0].v < |s.assigns| && c[0].v < |s.vd| && c[0].v < |s.pos|
    ensures AssumptionsOk(LearntState(s, c), assumptions)
  {
    AssumptionsFields(s, Attached(s, c, true), assumptions);
    LearntAssumptions(s, c, assumptions);
  }

  /** Assigning a variable keeps every unassigned decision variable in the heap. */
  lemma HeapAssign(assigns: seq<LBool>, decision: seq<bool>, polarity: seq<bool>, heap: set<Var>, v: Var, b: LBool)
    requires HeapOk(assigns, decision, polarity, heap) && v < |assigns| && b != Undef
    ensures HeapOk(assigns[v := b], decision, polarity, heap)
  {
  }

  /** As HeapOk, but the variable v, about to be assigned, may be missing from the heap. */
  ghost predicate HeapOkExcept(assigns: seq<LBool>, decision: seq<bool>, polarity: seq<bool>, heap: set<Var>, v: Var) {
    && |decision| == |polarity| == |assigns|
    && (forall u :: 0 <= u < |assigns| && decision[u] && assigns[u] == Undef && u != v ==> u in heap)
    && (forall u :: u in heap ==> u < |assigns|)
  }

  lemma HeapDecide(assigns: seq<LBool>, decision: seq<bool>, polarity: seq<bool>, heap: set<Var>, v: Var, b: LBool)
    requires HeapOkExcept(assigns, decision, polarity, heap, v) && v < |assigns| && b != Undef
    ensures HeapOk(assigns[v := b], decision, polarity, heap)
  {
  }

  /** Longer trails leave fewer unassigned variables. */
  lemma HeapExtend(s: State, t: State, decision: seq<bool>, polarity: seq<bool>, heap: set<Var>)
    requires Struct(s) && Struct(t) && s.trail <= t.trail && |s.assigns| == |t.assigns|
    requires HeapOk(s.assigns, decision, polarity, heap)
    ensures HeapOk(t.assigns, decision, polarity, heap)
  {
    forall v | 0 <= v < |s.assigns| && s.assigns[v] != Undef ensures t.assigns[v] != Undef {
      assert s.trail[s.pos[v]].v == v;
      assert t.trail[s.pos[v]] == s.trail[s.pos[v]];
      assert IsTrue(t.assigns, t.trail[s.pos[v]]);
    }
  }

  /** A decision on a fresh level keeps every invariant. */
  lemma DecideKeeps(f: Formula, s: State, p: Lit, assumptions: seq<Lit>)
    requires Struct(s) && Means(f, s) && AssumptionsOk(s, assumptions) && IsUndef(s.assigns, p)
    requires |s.lim| < |assumptions| ==> p == assumptions[|s.lim|]
    requires WatchInv(s.ca, s.watches, s.assigns, s.vd, s.pos, |s.trail|)
    ensures p.v < |s.vd| && p.v < |s.pos|
    ensures var s' := Enqueued(NewLevel(s), p, CREF_UNDEF);
            && Struct(s') && Means(f, s') && AssumptionsOk(s', assumptions)
            && WatchInv(s'.ca, s'.watches, s'.assigns, s'.vd, s'.pos, |s.trail|)
  {
    hide SemOk, Facts, WatchInv;
    var t := NewLevel(s);
    NewLevelStruct(s);
    NewLevelMeans(f, s);
    EnqueueStruct(t, p, CREF_UNDEF);
    EnqueueWatchInv(t, p, CREF_UNDEF, |s.trail|);
    AssumptionsDecide(s, p, assumptions);
    DecideMeans(f, t, p);
  }

  lemma DecideMeans(f: Formula, t: State, p: Lit)
    requires Struct(t) && Means(f, t) && t.lim != [] && p.v < |t.assigns|
    ensures Means(f, Enqueued(t, p, CREF_UNDEF))
  {
    assert Facts(Enqueued(t, p, CREF_UNDEF)) == Facts(t);
  }

  // ---------------------------------------------------------------- the search measure

  /** The progress of a state of n variables under na assumptions. */
  function Progressed(lim: seq<nat>, size: nat, n: nat, na: nat): nat {
    if |lim| <= n + na then Score(lim, size, n, n + na) else 0
  }

  /** What the measure can still grow by. */
  function Remaining(lim: seq<nat>, size: nat, n: nat, na: nat): int {
    Pow(n + 2, n + na + 1) - Progressed(lim, size, n, na)
  }

  lemma LevelsBound(s: State, na: nat)
    requires Struct(s) && LevelsOk(s.lim, |s.trail|, na)
    ensures |s.trail| <= |s.assigns| && |s.lim| <= |s.assigns| + na
    ensures LimOk(s.lim, |s.trail|)
  {
    StructBound(s);
  }

  lemma RemainingBound(s: State, na: nat)
    requires Struct(s) && LevelsOk(s.lim, |s.trail|, na)
    ensures Remaining(s.lim, |s.trail|, |s.assigns|, na) > 0
  {
    LevelsBound(s, na);
    ScoreBound(s.lim, |s.trail|, |s.assigns|, |s.assigns| + na);
  }

  lemma RemainingGrow(s: State, t: State, na: nat)
    requires Struct(s) && LevelsOk(s.lim, |s.trail|, na)
    requires t.lim == s.lim && |s.trail| <= |t.trail| && |s.assigns| == |t.assigns|
    ensures Remaining(t.lim, |t.trail|, |t.assigns|, na) <= Remaining(s.lim, |s.trail|, |s.assigns|, na)
    ensures LevelsOk(t.lim, |t.trail|, na)
  {
    LevelsBound(s, na);
    ScoreGrow(s.lim, |s.trail|, |t.trail|, |s.assigns|, |s.assigns| + na);
  }

  /** Backjumping and asserting a literal is progress. */
  lemma RemainingBackjump(s: State, lim: seq<nat>, size: nat, bt: nat, na: nat)
    requires Struct(s) && LevelsOk(s.lim, |s.trail|, na) && bt < |s.lim|
    requires lim == s.lim[..bt] && size == s.lim[bt] + 1
    ensures Remaining(lim, size, |s.assigns|, na) < Remaining(s.lim, |s.trail|, |s.assigns|, na)
    ensures LevelsOk(lim, size, na)
  {
    LevelsBound(s, na);
    ScoreBackjump(s.lim, |s.trail|, bt, |s.assigns|, |s.assigns| + na);
  }

  /** A level for an assumption that already holds is progress. */
  lemma RemainingDummy(s: State, na: nat)
    requires Struct(s) && LevelsOk(s.lim, |s.trail|, na) && |s.lim| < na
    ensures var lim := s.lim + [|s.trail|];
            && Remaining(lim, |s.trail|, |s.assigns|, na) < Remaining(s.lim, |s.trail|, |s.assigns|, na)
            && LevelsOk(lim, |s.trail|, na)
  {
    LevelsBound(s, na);
    ScorePush(s.lim, |s.trail|, |s.assigns|, |s.assigns| + na);
  }

  /** So is a decision. */
  lemma RemainingDecide(s: State, na: nat)
    requires Struct(s) && LevelsOk(s.lim, |s.trail|, na) && |s.trail| < |s.assigns|
    ensures var lim := s.lim + [|s.trail|];
            && Remaining(lim, |s.trail| + 1, |s.assigns|, na) < Remaining(s.lim, |s.trail|, |s.assigns|, na)
            && LevelsOk(lim, |s.trail| + 1, na)
  {
    LevelsBound(s, na);
    var lim := s.lim + [|s.trail|];
    ScorePush(s.lim, |s.trail|, |s.assigns|, |s.assigns| + na);
    ScoreGrow(lim, |s.trail|, |s.trail| + 1, |s.assigns|, |s.assigns| + na);
  }

  lemma ConflictAtRoot(f: Formula, s: State, confl: CRef, p: Lit)
    requires Struct(s) && Means(f, s) && s.lim == [] && Conflicting(s.ca, s.assigns, confl, p)
    ensures Unsat(f)
  {
    RootConflict(f, s, confl);
  }

  lemma HeapSizes(assigns: seq<LBool>, decision: seq<bool>, polarity: seq<bool>, heap: set<Var>)
    requires HeapOk(assigns, decision, polarity, heap)
    ensures |decision| == |polarity| == |assigns|
  {
  }

  lemma ListsLive(ca: Region, clauses: seq<CRef>, learnts: seq<CRef>)
    requires ListsOk(ca, clauses, learnts)
    ensures DistinctRefs(clauses) && DistinctRefs(learnts)
    ensures forall cr :: cr in clauses ==> Live(ca, cr)
    ensures forall cr :: cr in learnts ==> Live(ca, cr)
  {
  }

  lemma UnsatEntails(f: Formula)
    requires Unsat(f)
    ensures Entails(f, [])
  {
  }

  lemma HeapWeaken(assigns: seq<LBool>, decision: seq<bool>, polarity: seq<bool>, heap: set<Var>)
    requires HeapOk(assigns, decision, polarity, heap)
    ensures forall v :: HeapOkExcept(assigns, decision, polarity, heap, v)
    ensures |decision| == |assigns|
  {
  }

  /** No decision is left: if every variable has a value, the trail is a model. */
  lemma ModelFound(f: Formula, s: State, assumptions: seq<Lit>)
    requires Struct(s) && Means(f, s) && WatchInv(s.ca, s.watches, s.assigns, s.vd, s.pos, |s.trail|)
    requires AssumptionsOk(s, assumptions) && |s.lim| >= |assumptions|
    ensures (forall v :: 0 <= v < |s.assigns| ==> s.assigns[v] != Undef) ==>
              && SatAll(TrailModel(s.assigns), f)
              && forall p :: p in assumptions ==> Holds(TrailModel(s.assigns), p)
  {
    if forall v :: 0 <= v < |s.assigns| ==> s.assigns[v] != Undef {
      FullModel(f, s, assumptions);
    }
  }

  lemma RestartKeeps(f: Formula, s: State, q: nat, assumptions: seq<Lit>)
    requires Struct(s) && Means(f, s) && s.lim != [] && LastLim(s.lim) <= q
    requires WatchInv(s.ca, s.watches, s.assigns, s.vd, s.pos, q) && AssumptionsOk(s, assumptions)
    ensures s.lim[0] <= |s.trail| && |s.pos| == |s.assigns|
    ensures var s' := Cancelled(s, 0);
            && Struct(s') && Means(f, s') && AssumptionsOk(s', assumptions)
            && WatchInv(s'.ca, s'.watches, s'.assigns, s'.vd, s'.pos, |s'.trail|)
  {
    hide SemOk, Facts, WatchInv, AssumptionsOk;
    WatchInvLess(s, q, LastLim(s.lim));
    CancelStruct(s, 0);
    CancelMeans(f, s, 0);
    CancelWatchInv(s, 0);
    AssumptionsCancel(s, 0, assumptions);
  }

  lemma EntailsUnsat(f: Formula)
    ensures Entails(f, []) ==> Unsat(f)
  {
    assert forall a: Model :: !SatClause(a, []);
  }

  lemma LevelsRoot(size: nat, na: nat)
    ensures LevelsOk([], size, na)
  {
  }

  /** A new level-0 fact keeps the invariants. */
  lemma UnitFactKeeps(f: Formula, s: State, p: Lit, q: nat)
    requires Struct(s) && Means(f, s) && s.lim == [] && IsUndef(s.assigns, p) && Entails(f, [p])
    requires q <= |s.trail| && WatchInv(s.ca, s.watches, s.assigns, s.vd, s.pos, q)
    ensures p.v < |s.vd| && p.v < |s.pos|
    ensures var s' := Enqueued(s, p, CREF_UNDEF);
            Struct(s') && Means(f, s') && WatchInv(s'.ca, s'.watches, s'.assigns, s'.vd, s'.pos, q)
  {
    hide SemOk, Facts, WatchInv, Entails;
    EnqueueStruct(s, p, CREF_UNDEF);
    EnqueueWatchInv(s, p, CREF_UNDEF, q);
    UnitMeans(f, s, p);
  }
}
