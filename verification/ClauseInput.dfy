/** Adding problem clauses and variables. */
module ClauseInput {
  import opened Sat
  import opened SolverState
  import opened Propagation
  import opened Meaning
  import opened WatchClean
  import opened Backtracking
  import opened FinalAnalysis
  import opened SearchState
  import opened Sorting
  import opened Resolution

  function LitOrder(): (Lit, Lit) -> bool {
    (p: Lit, q: Lit) => ToInt(p) < ToInt(q)
  }

  lemma LitOrderWeak()
    ensures StrictWeakOrder(LitOrder())
  {
  }

  method SortLits(ps: seq<Lit>) returns (qs: seq<Lit>)
    ensures multiset(qs) == multiset(ps) && Sorted(qs, LitOrder())
    ensures |qs| == |ps| && forall x :: x in ps <==> x in qs
  {
    var a := new Lit[|ps|](i requires 0 <= i < |ps| => ps[i]);
    assert a[..] == ps && a[0..a.Length] == a[..];
    LitOrderWeak();
    Sort(a, 0, a.Length, LitOrder());
    assert a[0..a.Length] == a[..];
    qs := a[..];
    forall x ensures x in ps <==> x in qs {
      assert x in multiset(ps) <==> x in multiset(qs);
    }
  }

  /** Strictly increasing by code. */
  ghost predicate Increasing(c: seq<Lit>) {
    forall i, j :: 0 <= i < j < |c| ==> ToInt(c[i]) < ToInt(c[j])
  }

  /** The first i literals of the sorted input have been kept, dropped as false, or dropped as repeated. */
  ghost predicate Normalising(assigns: seq<LBool>, ps: seq<Lit>, i: nat, kept: seq<Lit>) {
    && i <= |ps| && Increasing(kept) && NoPair(kept)
    && (forall x :: x in kept ==> x in ps[..i] && IsUndef(assigns, x))
    && (forall x :: x in ps[..i] ==> x in kept || IsFalse(assigns, x))
  }

  lemma NormaliseStep(assigns: seq<LBool>, ps: seq<Lit>, i: nat, kept: seq<Lit>)
    requires Normalising(assigns, ps, i, kept) && i < |ps| && Sorted(ps, LitOrder())
    requires ps[i].v < |assigns| && !IsTrue(assigns, ps[i])
    requires kept != [] ==> ps[i] != Neg(kept[|kept| - 1])
    ensures if !IsFalse(assigns, ps[i]) && (kept == [] || ps[i] != kept[|kept| - 1])
            then Normalising(assigns, ps, i + 1, kept + [ps[i]])
            else Normalising(assigns, ps, i + 1, kept)
  {
    assert ps[..i + 1] == ps[..i] + [ps[i]];
    var q := ps[i];
    if !IsFalse(assigns, q) && (kept == [] || q != kept[|kept| - 1]) {
      forall k | 0 <= k < |kept| ensures ToInt(kept[k]) < ToInt(q) && kept[k].v != q.v {
        KeptBelow(assigns, ps, i, kept, k);
      }
    }
  }

  /** A literal kept earlier has a smaller code, and is not on the same variable. */
  lemma KeptBelow(assigns: seq<LBool>, ps: seq<Lit>, i: nat, kept: seq<Lit>, k: nat)
    requires Normalising(assigns, ps, i, kept) && i < |ps| && Sorted(ps, LitOrder()) && k < |kept|
    requires ps[i] != Neg(kept[|kept| - 1]) && ps[i] != kept[|kept| - 1]
    ensures ToInt(kept[k]) < ToInt(ps[i]) && kept[k].v != ps[i].v
  {
    var last := kept[|kept| - 1];
    assert last in kept;
    var m :| 0 <= m < i && ps[m] == last;
    assert !LitOrder()(ps[i], ps[m]);
    assert ToInt(last) <= ToInt(ps[i]);
    assert last.v != ps[i].v;
    assert kept[k] == last || ToInt(kept[k]) < ToInt(last);
  }

  /** The clause holds anyway: it has a true literal or two complementary ones. */
  ghost predicate Trivial(assigns: seq<LBool>, ps: seq<Lit>) {
    exists x :: x in ps && (IsTrue(assigns, x) || Neg(x) in ps)
  }

  /** The loop of `addClause_`: sort, drop false and repeated literals, and report a clause that needs no adding. */
  method NormaliseLits(assigns: seq<LBool>, ps: seq<Lit>) returns (skip: bool, kept: seq<Lit>)
    requires forall x :: x in ps ==> x.v < |assigns|
    ensures skip ==> Trivial(assigns, ps)
    ensures !skip ==>
              && NoPair(kept)
              && (forall x :: x in kept ==> x in ps && IsUndef(assigns, x))
              && (forall x :: x in ps ==> x in kept || IsFalse(assigns, x))
  {
    var qs := SortLits(ps);
    hide Sorted, LitOrder;
    kept := [];
    var i := 0;
    while i < |qs|
      invariant 0 <= i <= |qs| && Normalising(assigns, qs, i, kept)
    {
      assert qs[i] in qs;
      if IsTrue(assigns, qs[i]) {
        return true, kept;
      }
      if kept != [] && qs[i] == Neg(kept[|kept| - 1]) {
        assert kept[|kept| - 1] in kept;
        return true, kept;
      }
      NormaliseStep(assigns, qs, i, kept);
      if !IsFalse(assigns, qs[i]) && (kept == [] || qs[i] != kept[|kept| - 1]) {
        kept := kept + [qs[i]];
      }
      i := i + 1;
    }
    assert qs[..|qs|] == qs;
    skip := false;
  }

  // ---------------------------------------------------------------- meaning

  /** Old consequences stay consequences. */
  lemma AddMonotone(f: Formula, ca: Region, facts: seq<Lit>, c: seq<Lit>)
    requires SemOk(f, ca, facts)
    ensures forall cr :: Live(ca, cr) ==> Entails(f + [c], ca[cr].lits)
    ensures forall p :: p in facts ==> Entails(f + [c], [p])
  {
    forall a: Model, d | SatAll(a, f + [c]) && Entails(f, d) ensures SatClause(a, d) {
      SatAppend(a, f, c);
    }
  }

  /** A clause that the database already satisfies may be forgotten. */
  lemma AddRedundant(f: Formula, s: State, c: seq<Lit>)
    requires Means(f, s)
    requires forall a: Model :: SatDb(a, s.ca, Facts(s)) ==> SatClause(a, c)
    ensures Means(f + [c], s)
  {
    AddMonotone(f, s.ca, Facts(s), c);
    forall a: Model | SatDb(a, s.ca, Facts(s)) ensures SatAll(a, f + [c]) {
      SatAppend(a, f, c);
    }
  }

  lemma AddTrue(f: Formula, s: State, c: seq<Lit>, x: Lit)
    requires Struct(s) && s.lim == [] && Means(f, s) && x in c && IsTrue(s.assigns, x)
    ensures Means(f + [c], s)
  {
    assert s.trail[s.pos[x.v]].v == x.v;
    assert Facts(s)[s.pos[x.v]] == x;
    AddRedundant(f, s, c);
  }

  lemma AddTautology(f: Formula, s: State, c: seq<Lit>, x: Lit)
    requires Means(f, s) && x in c && Neg(x) in c
    ensures Means(f + [c], s)
  {
    forall a: Model ensures SatClause(a, c) {
      if !Holds(a, x) {
        assert Holds(a, Neg(x));
      }
    }
    AddRedundant(f, s, c);
  }

  /** A clause that holds anyway changes nothing. */
  lemma AddTrivial(f: Formula, s: State, c: seq<Lit>)
    requires Struct(s) && s.lim == [] && Means(f, s) && Trivial(s.assigns, c)
    ensures Means(f + [c], s)
  {
    var x :| x in c && (IsTrue(s.assigns, x) || Neg(x) in c);
    if IsTrue(s.assigns, x) {
      AddTrue(f, s, c, x);
    } else {
      AddTautology(f, s, c, x);
    }
  }

  /** The literals dropped are refuted at level 0, so what is kept follows from the clause. */
  lemma KeptEntailed(f: Formula, s: State, c: seq<Lit>, kept: seq<Lit>)
    requires Struct(s) && s.lim == [] && Means(f, s)
    requires forall x :: x in c ==> x in kept || IsFalse(s.assigns, x)
    ensures Entails(f + [c], kept)
  {
    forall a: Model | SatAll(a, f + [c]) ensures SatClause(a, kept) {
      SatAppend(a, f, c);
      var x :| x in c && Holds(a, x);
      if x !in kept {
        assert s.trail[s.pos[x.v]].v == x.v;
        assert AtLevel(s.lim, s.vd[x.v].level, s.pos[x.v]);
        RootFalse(f, s, x);
        UnitHolds(f, Neg(x), a);
      }
    }
  }

  lemma AddEmpty(f: Formula, s: State, c: seq<Lit>)
    requires Struct(s) && s.lim == [] && Means(f, s)
    requires forall x :: x in c ==> IsFalse(s.assigns, x)
    ensures Unsat(f + [c])
  {
    KeptEntailed(f, s, c, []);
    assert forall a: Model :: !SatClause(a, []);
  }

  /** A clause that shrinks to a unit becomes a level-0 fact. */
  lemma AddUnit(f: Formula, s: State, c: seq<Lit>, x: Lit)
    requires Struct(s) && s.lim == [] && Means(f, s) && x in c && IsUndef(s.assigns, x)
    requires forall y :: y in c ==> y == x || IsFalse(s.assigns, y)
    ensures x.v < |s.vd| && x.v < |s.pos| && Means(f + [c], Enqueued(s, x, CREF_UNDEF))
  {
    var s' := Enqueued(s, x, CREF_UNDEF);
    KeptEntailed(f, s, c, [x]);
    AddMonotone(f, s.ca, Facts(s), c);
    assert Facts(s) == s.trail && Facts(s') == s.trail + [x];
    forall a: Model | SatDb(a, s'.ca, Facts(s')) ensures SatAll(a, f + [c]) {
      assert SatDb(a, s.ca, Facts(s)) by {
        forall p | p in Facts(s) ensures Holds(a, p) {
          assert p in Facts(s');
        }
      }
      assert x in Facts(s');
      SatAppend(a, f, c);
    }
  }

  lemma AddAttached(f: Formula, s: State, c: seq<Lit>, kept: seq<Lit>)
    requires Struct(s) && s.lim == [] && Means(f, s)
    requires forall y :: y in c ==> y in kept || IsFalse(s.assigns, y)
    requires forall y :: y in kept ==> y in c
    requires |kept| >= 2 && Neg(kept[0]) in s.watches && Neg(kept[1]) in s.watches && kept[0] != kept[1]
    ensures Means(f + [c], Attached(s, kept, false))
  {
    var s' := Attached(s, kept, false);
    KeptEntailed(f, s, c, kept);
    AddMonotone(f, s.ca, Facts(s), c);
    assert Facts(s') == Facts(s);
    forall cr | Live(s'.ca, cr) ensures Entails(f + [c], s'.ca[cr].lits) {
      if cr < |s.ca| {
        assert Live(s.ca, cr);
      }
    }
    forall a: Model | SatDb(a, s'.ca, Facts(s)) ensures SatAll(a, f + [c]) {
      forall cr | Live(s.ca, cr) && !s.ca[cr].learnt ensures SatClause(a, s.ca[cr].lits) {
        assert Live(s'.ca, cr);
      }
      assert SatDb(a, s.ca, Facts(s));
      assert Live(s'.ca, |s.ca|);
      SatAppend(a, f, c);
    }
  }

  /** Attaching a clause of unassigned literals keeps every invariant. */
  lemma AddKeeps(f: Formula, s: State, c: seq<Lit>, kept: seq<Lit>, q: nat, dirty: set<Lit>, dirties: seq<Lit>,
                 clauses: seq<CRef>, learnts: seq<CRef>, assumptions: seq<Lit>)
    requires Struct(s) && s.lim == [] && Means(f, s) && WatchInv(s.ca, s.watches, s.assigns, s.vd, s.pos, q)
    requires DirtyOk(s.ca, s.watches, dirty, dirties) && ListsOk(s.ca, clauses, learnts)
    requires AssumptionsOk(s, assumptions)
    requires |kept| >= 2 && NoPair(kept)
    requires forall x :: x in kept ==> x in c && IsUndef(s.assigns, x)
    requires forall x :: x in c ==> x in kept || IsFalse(s.assigns, x)
    ensures Neg(kept[0]) in s.watches && Neg(kept[1]) in s.watches && kept[0] != kept[1]
    ensures var s' := Attached(s, kept, false);
            && Struct(s') && Means(f + [c], s') && WatchInv(s'.ca, s'.watches, s'.assigns, s'.vd, s'.pos, q)
            && DirtyOk(s'.ca, s'.watches, dirty, dirties) && ListsOk(s'.ca, clauses + [|s.ca|], learnts)
            && AssumptionsOk(s', assumptions)
  {
    hide Struct, SemOk, Facts, WatchInv, DirtyOk, ListsOk, AssumptionsOk;
    assert ClauseOk(kept, |s.assigns|);
    AttachStruct(s, kept, false);
    AddAttached(f, s, c, kept);
    assert forall w: nat :: w < |kept| ==> kept[w] in kept;
    AttachWatchInv(s, kept, false, q);
    AttachDirty(s, kept, false, dirty, dirties);
    ListsAdd(s.ca, clauses, learnts, kept, false);
    AttachedFields(s, kept, false);
    AssumptionsFields(s, Attached(s, kept, false), assumptions);
  }

  // ---------------------------------------------------------------- variables

  /** The state after `newVar`. */
  function Widened(s: State): State {
    var v := |s.assigns|;
    s.(assigns := s.assigns + [Undef], vd := s.vd + [VarData(CREF_UNDEF, 0)], pos := s.pos + [0],
       watches := s.watches[Lit(v, false) := []][Lit(v, true) := []])
  }

  lemma WidenedStruct(s: State)
    requires Struct(s)
    ensures Struct(Widened(s))
  {
    var s' := Widened(s);
    var v := |s.assigns|;
    forall i | 0 <= i < |s'.trail| && s'.vd[s'.trail[i].v].reason != CREF_UNDEF
      ensures ReasonAt(s'.ca, s'.assigns, s'.pos, s'.trail[i], s'.vd[s'.trail[i].v].reason, i)
    {
      assert ReasonAt(s.ca, s.assigns, s.pos, s.trail[i], s.vd[s.trail[i].v].reason, i);
    }
    assert WatchSound(s'.ca, s'.watches) by {
      forall p, j | p in s'.watches && 0 <= j < |s'.watches[p]| ensures WatcherOk(s'.ca, p, s'.watches[p][j]) {
        assert p in s.watches && s'.watches[p] == s.watches[p];
      }
    }
    forall cr, w | Live(s'.ca, cr) && 0 <= w < 2 && w < |s'.ca[cr].lits|
      ensures Neg(s'.ca[cr].lits[w]) in s'.watches && HasWatch(s'.watches[Neg(s'.ca[cr].lits[w])], cr, 0)
    {
      assert ClauseOk(s.ca[cr].lits, |s.assigns|);
      assert s.ca[cr].lits[w] in s.ca[cr].lits;
    }
  }

  lemma WidenedKeeps(f: Formula, s: State, q: nat, dirty: set<Lit>, dirties: seq<Lit>, assumptions: seq<Lit>)
    requires Struct(s) && Means(f, s) && WatchInv(s.ca, s.watches, s.assigns, s.vd, s.pos, q) && q <= |s.trail|
    requires DirtyOk(s.ca, s.watches, dirty, dirties) && s.lim == []
    ensures var s' := Widened(s);
            && Struct(s') && Means(f, s') && WatchInv(s'.ca, s'.watches, s'.assigns, s'.vd, s'.pos, q)
            && DirtyOk(s'.ca, s'.watches, dirty, dirties) && AssumptionsOk(s', assumptions)
  {
    var s' := Widened(s);
    WidenedStruct(s);
    assert Facts(s') == Facts(s);
    forall cr, w: nat | Live(s'.ca, cr) && FalseWatch(s'.ca[cr].lits, w, s'.assigns, s'.vd, s'.pos, q)
      ensures Excused(s'.ca, s'.watches, s'.assigns, s'.vd, cr, w, s'.vd[s'.ca[cr].lits[w].v].level)
    {
      WidenedWatch(s, cr, w, q);
    }
    forall p, j | p in s'.watches && 0 <= j < |s'.watches[p]| && !Live(s'.ca, s'.watches[p][j].cref)
      ensures p in dirty
    {
      assert p in s.watches && s'.watches[p] == s.watches[p];
    }
  }

  lemma WidenedWatch(s: State, cr: CRef, w: nat, q: nat)
    requires Struct(s) && WatchInv(s.ca, s.watches, s.assigns, s.vd, s.pos, q)
    requires var s' := Widened(s); Live(s'.ca, cr) && FalseWatch(s'.ca[cr].lits, w, s'.assigns, s'.vd, s'.pos, q)
    ensures var s' := Widened(s);
            Excused(s'.ca, s'.watches, s'.assigns, s'.vd, cr, w, s'.vd[s'.ca[cr].lits[w].v].level)
  {
    var c := s.ca[cr].lits;
    assert FalseWatch(c, w, s.assigns, s.vd, s.pos, q);
    assert c[w] in c && ClauseOk(c, |s.assigns|) && Neg(c[w]) in s.watches;
    ExcusedKept(s, cr, w, s.vd[c[w].v].level, Widened(s), cr);
  }

  lemma UnsatAppend(f: Formula, c: seq<Lit>)
    requires Unsat(f)
    ensures Unsat(f + [c])
  {
    forall a: Model ensures !SatAll(a, f + [c]) {
      SatAppend(a, f, c);
    }
  }

  /** A unit clause enqueued at level 0 keeps the other invariants. */
  lemma UnitKeeps(s: State, x: Lit, q: nat, assumptions: seq<Lit>)
    requires Struct(s) && s.lim == [] && IsUndef(s.assigns, x) && q <= |s.trail|
    requires WatchInv(s.ca, s.watches, s.assigns, s.vd, s.pos, q) && AssumptionsOk(s, assumptions)
    ensures x.v < |s.vd| && x.v < |s.pos|
    ensures var s' := Enqueued(s, x, CREF_UNDEF);
            && Struct(s') && WatchInv(s'.ca, s'.watches, s'.assigns, s'.vd, s'.pos, q) && AssumptionsOk(s', assumptions)
  {
    EnqueueStruct(s, x, CREF_UNDEF);
    EnqueueWatchInv(s, x, CREF_UNDEF, q);
    AssumptionsEnqueue(s, x, CREF_UNDEF, assumptions);
  }

  lemma InitialTrail()
    ensures TrailOk([], [], []) && LimOk([], 0) && LevelOk([], [], []) && ReasonOk([], [], [], [], [], [])
  {
  }

  lemma InitialWatches()
    ensures DbOk([], 0) && WatchKeys(map[], 0) && WatchSound([], map[]) && WatchComplete([], map[])
  {
  }

  lemma InitialMeans()
    ensures SemOk([], [], []) && DirtyOk([], map[], {}, []) && ListsOk([], [], []) && WatchInv([], map[], [], [], [], 0)
  {
  }

  /** A solver without variables satisfies every invariant. */
  lemma InitialState()
    ensures var s := State([], map[], [], [], [], [], []);
            && Struct(s) && Means([], s) && DirtyOk([], map[], {}, []) && ListsOk([], [], [])
            && WatchInv([], map[], [], [], [], 0) && AssumptionsOk(s, [])
  {
    hide TrailOk, LimOk, LevelOk, ReasonOk, DbOk, WatchKeys, WatchSound, WatchComplete, SemOk, DirtyOk, ListsOk,
      WatchInv;
    InitialTrail();
    InitialWatches();
    InitialMeans();
    assert Facts(State([], map[], [], [], [], [], [])) == [];
  }

  lemma HeapWiden(assigns: seq<LBool>, decision: seq<bool>, polarity: seq<bool>, heap: set<Var>, dvar: bool, sign: bool)
    requires HeapOk(assigns, decision, polarity, heap)
    ensures |decision| == |polarity| == |assigns|
    ensures HeapOk(assigns + [Undef], decision + [dvar], polarity + [sign], heap + if dvar then {|assigns|} else {})
  {
  }
}
