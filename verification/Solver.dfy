/** The conflict-driven clause-learning solver. */
module CdclSolver {
  import opened Wrappers
  import opened Sat
  import opened SolverState
  import opened Propagation
  import opened Meaning
  import opened WatchClean
  import opened Backtracking
  import opened Analysis
  import opened FinalAnalysis
  import opened ImplicationPoint
  import opened Redundancy
  import opened Removal
  import opened Learning
  import opened SearchState
  import opened Progress
  import opened Reduction
  import opened Relocation
  import opened ClauseInput
  import opened Resolution
  import opened Sorting

  /** The results of successive searches: only the last one may be a verdict. */
  ghost predicate Repeated(results: seq<LBool>) {
    0 < |results| <= 12 && forall i :: 0 <= i < |results| - 1 ==> results[i] == Undef
  }

  /** What minisat's `solve_` reports for them: the twelfth counts as True, unless the budget ended there. */
  function Reported(results: seq<LBool>, stopped: bool): LBool
    requires results != []
  {
    if |results| > 11 && !stopped then True else results[|results| - 1]
  }

  /** The report is what the last search said exactly when that was True or fewer than twelve were needed. */
  lemma ReportedExact(results: seq<LBool>, stopped: bool)
    requires Repeated(results)
    ensures Reported(results, stopped) == results[|results| - 1] <==>
              |results| < 12 || stopped || results[|results| - 1] == True
  {
  }

  /** A run that it misreports: eleven searches are cut off, the twelfth refutes the formula, and the report is True. */
  lemma ReportedWrong()
    ensures var results := seq(11, _ => Undef) + [False];
            Repeated(results) && Reported(results, false) == True && results[11] == False
  {
    var results := seq(11, _ => Undef) + [False];
    assert forall i :: 0 <= i < 11 ==> results[i] == Undef;
  }

  const RESCALE := 100000000000000000000.0

  class Solver {
    var ok: bool
    var clauses: seq<CRef>
    var learnts: seq<CRef>
    var ca: Region
    var watches: Watches
    var dirty: set<Lit>
    var dirties: seq<Lit>
    var assigns: seq<LBool>
    var decision: seq<bool>
    var polarity: seq<bool>
    var orderHeap: set<Var>
    var phaseSaving: int
    var ccminMode: int
    var seen: seq<bool>
    var analyzeToclear: seq<Lit>
    var conflict: seq<Lit>
    var assumptions: seq<Lit>
    var model: seq<LBool>
    var activity: seq<real>
    var claInc: real
    var conflicts: nat
    var trail: seq<Lit>
    var trailLim: seq<nat>
    var vardata: seq<VarData>
    var qhead: nat
    ghost var pos: seq<nat>
    ghost var formula: Formula

    ghost function S(): State
      reads this`ca, this`watches, this`assigns, this`trail, this`trailLim, this`vardata, this`pos
    {
      State(ca, watches, assigns, trail, trailLim, vardata, pos)
    }

    // -------------------------------------------------------------- watch lists

    method Clean(p: Lit)
      requires p in watches
      modifies this`watches, this`dirty
      ensures watches == old(watches)[p := Keep(ca, old(watches[p]))]
      ensures dirty == old(dirty) - {p}
    {
      var ws := watches[p];
      var i, j := 0, 0;
      while i < |ws|
        invariant 0 <= j <= i <= |ws| == |old(watches[p])|
        invariant ws[i..] == old(watches[p])[i..]
        invariant ws[..j] == Keep(ca, old(watches[p])[..i])
      {
        var w := ws[i];
        assert old(watches[p])[..i + 1][..i] == old(watches[p])[..i];
        if Live(ca, w.cref) {
          ws := ws[j := w];
          j := j + 1;
        }
        i := i + 1;
      }
      assert old(watches[p])[..i] == old(watches[p]);
      watches := watches[p := ws[..j]];
      dirty := dirty - {p};
    }

    method CleanAll()
      requires DirtyOk(ca, watches, dirty, dirties)
      modifies this`watches, this`dirty, this`dirties
      ensures Cleaned(ca, old(watches), watches)
      ensures dirty == {} && dirties == []
    {
      ghost var w0, d0 := watches, dirty;
      hide Keep, CleanProgress, DirtyOk, Cleaned;
      CleanBegin(ca, w0, d0, dirties);
      var i := 0;
      while i < |dirties|
        invariant 0 <= i <= |dirties| && dirties == old(dirties)
        invariant CleanProgress(ca, w0, watches, d0, dirty, dirties, i)
      {
        CleanStep(ca, w0, watches, d0, dirty, dirties, i);
        if dirties[i] in dirty {
          Clean(dirties[i]);
        }
        i := i + 1;
      }
      CleanFinished(ca, w0, watches, d0, dirty, dirties);
      dirties := [];
    }

    // -------------------------------------------------------------- the trail

    method UncheckedEnqueue(p: Lit, from: CRef)
      requires p.v < |assigns| && p.v < |vardata| && p.v < |pos|
      modifies this`assigns, this`vardata, this`trail, this`pos
      ensures S() == Enqueued(old(S()), p, from)
    {
      assigns := assigns[p.v := if p.neg then False else True];
      vardata := vardata[p.v := VarData(from, |trailLim|)];
      pos := pos[p.v := |trail|];
      trail := trail + [p];
    }

    // -------------------------------------------------------------- propagation

    /** Find a literal that is not false, from position 2 on. */
    method FindNewWatch(cr: CRef) returns (k: nat)
      requires 0 <= cr < |ca| && |ca[cr].lits| >= 2
      requires forall x :: x in ca[cr].lits ==> x.v < |assigns|
      ensures 2 <= k <= |ca[cr].lits|
      ensures forall i :: 2 <= i < k ==> IsFalse(assigns, ca[cr].lits[i])
      ensures k < |ca[cr].lits| ==> !IsFalse(assigns, ca[cr].lits[k])
    {
      k := 2;
      while k < |ca[cr].lits| && IsFalse(assigns, ca[cr].lits[k])
        invariant 2 <= k <= |ca[cr].lits|
        invariant forall i :: 2 <= i < k ==> IsFalse(assigns, ca[cr].lits[i])
      {
        k := k + 1;
      }
    }

    /** The state with the list of p replaced by its kept prefix and unvisited suffix. */
    ghost function Mid(p: Lit, ws: seq<Watcher>, i: nat, j: nat): State
      requires j <= i <= |ws|
      reads this
    {
      S().(watches := watches[p := MidList(ws, i, j)])
    }

    /** Visit the watcher at position i of the list of p, at trail position q. */
    method Visit(p: Lit, q: nat, ws0: seq<Watcher>, i0: nat, j0: nat)
      returns (confl: CRef, ws: seq<Watcher>, i: nat, j: nat)
      requires j0 <= i0 < |ws0| && p in watches && q < |trail| && trail[q] == p
      requires RoundInv(Mid(p, ws0, i0, j0), q, j0) && Means(formula, S())
      modifies this`ca, this`watches, this`assigns, this`vardata, this`trail, this`pos, this`qhead
      ensures i0 < i && j0 <= j <= i <= |ws| == |ws0| && p in watches
      ensures Means(formula, S()) && SameDb(old(ca), ca) && old(trail) <= trail && |assigns| == old(|assigns|)
      ensures confl == CREF_UNDEF ==> RoundInv(Mid(p, ws, i, j), q, j) && qhead == old(qhead)
      ensures confl != CREF_UNDEF ==>
                RoundInv(Mid(p, ws, i, j), q, j0) && qhead == |trail| && Conflicting(ca, assigns, confl, p) && i == |ws|
    {
      hide RoundInv, Means, SameDb, WatchKeys, ClauseOk, Excused, MidList, Swap;
      confl, ws, i, j := CREF_UNDEF, ws0, i0, j0;
      ghost var m := Mid(p, ws, i, j);
      var cr, blocker := ws[i].cref, ws[i].blocker;
      KeepSlot(watches, p, ws, i, j, blocker);
      RoundFacts(m, q, j);
      if IsTrue(assigns, blocker) {
        Advance(m, q, j, blocker);
        ws := ws[j := ws[i]];
        i, j := i + 1, j + 1;
        SameDbReflexive(ca);
        return;
      }
      if ca[cr].lits[0] == Neg(p) {
        NormaliseClause(p, q, ws, i, j, cr);
      } else {
        SameDbReflexive(ca);
      }
      label Normal:
      confl, ws, i, j := VisitClause(p, q, ws, i, j, cr);
      SameDbTransitive(old(ca), old@Normal(ca), ca);
    }

    method NormaliseClause(p: Lit, q: nat, ghost ws: seq<Watcher>, ghost i: nat, ghost j: nat, cr: CRef)
      requires j <= i < |ws| && p in watches && q < |trail| && trail[q] == p && ws[i].cref == cr
      requires RoundInv(Mid(p, ws, i, j), q, j) && Means(formula, S())
      requires Live(ca, cr) && |ca[cr].lits| >= 2 && ca[cr].lits[0] == Neg(p)
      modifies this`ca
      ensures RoundInv(Mid(p, ws, i, j), q, j) && Means(formula, S()) && SameDb(old(ca), ca)
      ensures Live(ca, cr) && |ca[cr].lits| >= 2 && ca[cr].lits[1] == Neg(p)
    {
      hide RoundInv, SemOk, SameDb, MidList;
      ghost var m := Mid(p, ws, i, j);
      Normalise(m, q, j, cr);
      SemSame(formula, ca, SwapIn(ca, cr, 0, 1), Facts(m));
      ca := ca[cr := ca[cr].(lits := Swap(ca[cr].lits, 0, 1))];
    }

    method VisitClause(p: Lit, q: nat, ws0: seq<Watcher>, i0: nat, j0: nat, cr: CRef)
      returns (confl: CRef, ws: seq<Watcher>, i: nat, j: nat)
      requires j0 <= i0 < |ws0| && p in watches && q < |trail| && trail[q] == p && ws0[i0].cref == cr
      requires RoundInv(Mid(p, ws0, i0, j0), q, j0) && Means(formula, S())
      requires Live(ca, cr) && |ca[cr].lits| >= 2 && ca[cr].lits[1] == Neg(p)
      modifies this`ca, this`watches, this`assigns, this`vardata, this`trail, this`pos, this`qhead
      ensures i0 < i && j0 <= j <= i <= |ws| == |ws0| && p in watches
      ensures Means(formula, S()) && SameDb(old(ca), ca) && old(trail) <= trail && |assigns| == old(|assigns|)
      ensures confl == CREF_UNDEF ==> RoundInv(Mid(p, ws, i, j), q, j) && qhead == old(qhead)
      ensures confl != CREF_UNDEF ==>
                RoundInv(Mid(p, ws, i, j), q, j0) && qhead == |trail| && Conflicting(ca, assigns, confl, p) && i == |ws|
    {
      hide RoundInv, SemOk, Facts, SameDb, MidList, WatchKeys, ClauseOk, Excused, Swap;
      confl, ws, i, j := CREF_UNDEF, ws0, i0, j0;
      var first := ca[cr].lits[0];
      ghost var m := Mid(p, ws, i, j);
      KeepSlot(watches, p, ws, i, j, first);
      RoundFacts(m, q, j);
      if IsTrue(assigns, first) {
        Advance(m, q, j, first);
        ws := ws[j := Watcher(cr, first)];
        i, j := i + 1, j + 1;
        SameDbReflexive(ca);
        return;
      }
      var k := FindNewWatch(cr);
      if k < |ca[cr].lits| {
        assert !IsTrue(assigns, first);
        MoveClause(p, q, ws, i, j, cr, k);
        i := i + 1;
        return;
      }
      assert forall i :: 2 <= i < |ca[cr].lits| ==> IsFalse(assigns, ca[cr].lits[i]);
      if IsFalse(assigns, first) {
        ws, i, j := StopAt(p, q, ws, i, j, cr);
        confl := cr;
      } else {
        ImplyClause(p, q, ws, i, j, cr);
        ws := ws[j := Watcher(cr, first)];
        i, j := i + 1, j + 1;
      }
      SameDbReflexive(ca);
    }

    /** The clause is false: keep its watcher and all the unvisited ones, and empty the queue. */
    method StopAt(p: Lit, q: nat, ws0: seq<Watcher>, i0: nat, j0: nat, cr: CRef)
      returns (ws: seq<Watcher>, i: nat, j: nat)
      requires j0 <= i0 < |ws0| && p in watches && q < |trail| && trail[q] == p && ws0[i0].cref == cr
      requires RoundInv(Mid(p, ws0, i0, j0), q, j0)
      requires Live(ca, cr) && |ca[cr].lits| >= 2 && ca[cr].lits[1] == Neg(p)
      requires IsFalse(assigns, ca[cr].lits[0])
      requires forall k :: 2 <= k < |ca[cr].lits| ==> IsFalse(assigns, ca[cr].lits[k])
      modifies this`qhead
      ensures j0 <= j <= i == |ws| == |ws0|
      ensures RoundInv(Mid(p, ws, i, j), q, j0) && qhead == |trail| && Conflicting(ca, assigns, cr, p)
    {
      hide RoundInv, WatchKeys, ClauseOk, MidList;
      ghost var m := Mid(p, ws0, i0, j0);
      var first := ca[cr].lits[0];
      KeepSlot(watches, p, ws0, i0, j0, first);
      RoundFacts(m, q, j0);
      ReblockRound(m, q, j0, first);
      qhead := |trail|;
      ws, i, j := CopyRest(ws0[j0 := Watcher(cr, first)], i0 + 1, j0 + 1);
    }

    /** The clause is unit: its first literal is implied. */
    method ImplyClause(p: Lit, q: nat, ghost ws: seq<Watcher>, ghost i: nat, ghost j: nat, cr: CRef)
      requires j <= i < |ws| && p in watches && q < |trail| && trail[q] == p && ws[i].cref == cr
      requires RoundInv(Mid(p, ws, i, j), q, j) && Means(formula, S())
      requires Live(ca, cr) && |ca[cr].lits| >= 2 && ca[cr].lits[1] == Neg(p)
      requires !IsTrue(assigns, ca[cr].lits[0]) && !IsFalse(assigns, ca[cr].lits[0])
      requires forall k :: 2 <= k < |ca[cr].lits| ==> IsFalse(assigns, ca[cr].lits[k])
      modifies this`assigns, this`vardata, this`trail, this`pos
      ensures RoundInv(Mid(p, ws[j := Watcher(cr, ca[cr].lits[0])], i + 1, j + 1), q, j + 1)
      ensures Means(formula, S()) && old(trail) <= trail && trail[q] == p && |assigns| == old(|assigns|)
    {
      ghost var m := Mid(p, ws, i, j);
      var first := ca[cr].lits[0];
      KeepSlot(watches, p, ws, i, j, first);
      RoundFacts(m, q, j);
      assert first in ca[cr].lits;
      assert IsUndef(assigns, first);
      hide RoundInv, SemOk, WatchKeys, ClauseOk, Excused, MidList, Enqueueable, Facts;
      ImplyFirst(m, q, j);
      ImplyMeans(formula, m, first, cr);
      MeansFields(formula, Enqueued(m, first, cr), Enqueued(S(), first, cr));
      UncheckedEnqueue(first, cr);
    }

    /** Shift the unvisited watchers down behind the kept ones. */
    method CopyRest(ws0: seq<Watcher>, i0: nat, j0: nat) returns (ws: seq<Watcher>, i: nat, j: nat)
      requires j0 <= i0 <= |ws0|
      ensures |ws| == |ws0| == i && j0 <= j <= i
      ensures MidList(ws, i, j) == MidList(ws0, i0, j0)
    {
      ws, i, j := ws0, i0, j0;
      while i < |ws|
        invariant j0 <= j <= i <= |ws| == |ws0|
        invariant MidList(ws, i, j) == MidList(ws0, i0, j0)
      {
        assert MidList(ws[j := ws[i]], i + 1, j + 1) == MidList(ws, i, j);
        ws := ws[j := ws[i]];
        i, j := i + 1, j + 1;
      }
    }

    method MoveClause(p: Lit, q: nat, ghost ws: seq<Watcher>, i: nat, ghost j: nat, cr: CRef, k: nat)
      requires j <= i < |ws| && p in watches && q < |trail| && trail[q] == p && ws[i].cref == cr
      requires RoundInv(Mid(p, ws, i, j), q, j) && Means(formula, S())
      requires Live(ca, cr) && 2 <= k < |ca[cr].lits| && ca[cr].lits[1] == Neg(p)
      requires !IsTrue(assigns, ca[cr].lits[0]) && !IsFalse(assigns, ca[cr].lits[k])
      modifies this`ca, this`watches
      ensures p in watches && RoundInv(Mid(p, ws, i + 1, j), q, j)
      ensures Means(formula, S()) && SameDb(old(ca), ca)
    {
      hide RoundInv, SemOk, SameDb, MidList;
      ghost var m := Mid(p, ws, i, j);
      var c := ca[cr].lits;
      KeepSlot(watches, p, ws, i, j, c[0]);
      MoveWatch(m, q, j, k);
      DropSlot(watches, p, ws, i, j, c[k], c[0]);
      SemSame(formula, ca, SwapIn(ca, cr, 1, k), Facts(m));
      ca := ca[cr := ca[cr].(lits := Swap(c, 1, k))];
      watches := watches[Neg(c[k]) := watches[Neg(c[k])] + [Watcher(cr, c[0])]];
    }

    /** Visit the watchers of the literal p at trail position q, compacting its list in place. */
    method PropagateLit(p: Lit, q: nat) returns (confl: CRef)
      requires Struct(S()) && NoDeleted(ca, watches) && Means(formula, S())
      requires q < |trail| && trail[q] == p && LastLim(trailLim) <= q < qhead
      requires WatchInv(ca, watches, assigns, vardata, pos, q)
      modifies this`ca, this`watches, this`assigns, this`vardata, this`trail, this`pos, this`qhead
      ensures Struct(S()) && NoDeleted(ca, watches) && Means(formula, S())
      ensures SameDb(old(ca), ca) && old(trail) <= trail && |assigns| == old(|assigns|)
      ensures confl == CREF_UNDEF ==>
                WatchInv(ca, watches, assigns, vardata, pos, q + 1) && qhead == old(qhead)
      ensures confl != CREF_UNDEF ==>
                WatchInv(ca, watches, assigns, vardata, pos, q) && qhead == |trail|
                  && Conflicting(ca, assigns, confl, p)
    {
      var ws := watches[p];
      confl := CREF_UNDEF;
      hide RoundInv, SemOk, Facts, SameDb, Struct, NoDeleted, WatchInv, Conflicting, MidList;
      var i, j := 0, 0;
      RoundStart(S(), q);
      MidWhole(watches, p);
      SameDbReflexive(ca);
      ghost var g := 0;
      while i < |ws|
        invariant 0 <= g <= j <= i <= |ws|
        invariant p in watches && q < |trail| && trail[q] == p
        invariant old(trail) <= trail && |assigns| == old(|assigns|)
        invariant SameDb(old(ca), ca)
        invariant Means(formula, S())
        invariant RoundInv(Mid(p, ws, i, j), q, g)
        invariant confl == CREF_UNDEF ==> qhead == old(qhead) && g == j
        invariant confl != CREF_UNDEF ==> qhead == |trail| && Conflicting(ca, assigns, confl, p) && i == |ws|
      {
        ghost var c0 := ca;
        confl, ws, i, j := Visit(p, q, ws, i, j);
        SameDbTransitive(old(ca), c0, ca);
        g := if confl == CREF_UNDEF then j else g;
      }
      MidDone(watches, p, ws, i, j);
      if confl == CREF_UNDEF {
        RoundEnd(Mid(p, ws, i, j), q);
      } else {
        RoundCut(Mid(p, ws, i, j), q, g);
      }
      RoundStruct(Mid(p, ws, i, j), q, g);
      watches := watches[p := ws[..j]];
    }

    /** Everything propagation relies on, with the queue starting at qhead. */
    ghost predicate Core()
      reads this
    {
      && Struct(S())
      && Means(formula, S())
      && DirtyOk(ca, watches, dirty, dirties)
      && LastLim(trailLim) <= qhead <= |trail|
    }

    /** Propagate every enqueued fact; report a falsified clause if there is one. */
    method Propagate() returns (confl: CRef)
      requires Core() && WatchInv(ca, watches, assigns, vardata, pos, qhead)
      modifies this`ca, this`watches, this`dirty, this`dirties, this`assigns, this`vardata, this`trail,
               this`pos, this`qhead
      ensures Core() && NoDeleted(ca, watches) && qhead == |trail|
      ensures SameDb(old(ca), ca) && old(trail) <= trail && |assigns| == old(|assigns|)
      ensures confl == CREF_UNDEF ==> WatchInv(ca, watches, assigns, vardata, pos, |trail|) && UnitFree(ca, assigns)
      ensures confl != CREF_UNDEF ==>
                && WatchInv(ca, watches, assigns, vardata, pos, LastLim(trailLim))
                && exists q :: LastLim(trailLim) <= q < |trail| && Conflicting(ca, assigns, confl, trail[q])
    {
      hide Struct, WatchInv, UnitFree, NoDeleted, SemOk, Facts, Conflicting, DirtyOk, SameDb;
      CleanQueue();
      confl := PropagateQueue();
      if confl == CREF_UNDEF {
        PropagatedUnitFree(S());
      }
    }

    /** Clean all watch lists before propagating. */
    method CleanQueue()
      requires Core() && WatchInv(ca, watches, assigns, vardata, pos, qhead)
      modifies this`watches, this`dirty, this`dirties
      ensures Core() && NoDeleted(ca, watches) && dirty == {} && dirties == []
      ensures WatchInv(ca, watches, assigns, vardata, pos, qhead)
    {
      hide Struct, WatchInv, NoDeleted, SemOk, Facts, Cleaned, DirtyOk;
      ghost var s := S();
      CleanAll();
      CleanedStruct(s, watches);
      CleanedWatchInv(s, watches, qhead);
      MeansFields(formula, s, S());
      CleanDirty(ca, watches);
    }

    method PropagateQueue() returns (confl: CRef)
      requires Struct(S()) && Means(formula, S()) && NoDeleted(ca, watches)
      requires dirty == {} && dirties == []
      requires LastLim(trailLim) <= qhead <= |trail| && WatchInv(ca, watches, assigns, vardata, pos, qhead)
      modifies this`ca, this`watches, this`assigns, this`vardata, this`trail, this`pos, this`qhead
      ensures Core() && NoDeleted(ca, watches) && qhead == |trail|
      ensures SameDb(old(ca), ca) && old(trail) <= trail && |assigns| == old(|assigns|)
      ensures confl == CREF_UNDEF ==> WatchInv(ca, watches, assigns, vardata, pos, |trail|)
      ensures confl != CREF_UNDEF ==>
                && WatchInv(ca, watches, assigns, vardata, pos, LastLim(trailLim))
                && exists q :: LastLim(trailLim) <= q < |trail| && Conflicting(ca, assigns, confl, trail[q])
    {
      hide Struct, SemOk, Facts, SameDb, NoDeleted, WatchInv, Conflicting, DirtyOk, LastLim;
      confl := CREF_UNDEF;
      SameDbReflexive(ca);
      StructBound(S());
      ghost var g := qhead;
      while qhead < |trail|
        invariant Struct(S()) && Means(formula, S()) && NoDeleted(ca, watches)
        invariant LastLim(trailLim) <= g <= qhead <= |trail| <= |assigns|
        invariant SameDb(old(ca), ca) && old(trail) <= trail && |assigns| == old(|assigns|)
        invariant confl == CREF_UNDEF ==> g == qhead
        invariant WatchInv(ca, watches, assigns, vardata, pos, g)
        invariant confl != CREF_UNDEF ==>
                    && qhead == |trail| && g < |trail| && Conflicting(ca, assigns, confl, trail[g])
        decreases |assigns| - qhead
      {
        var p := trail[qhead];
        qhead := qhead + 1;
        ghost var c0 := ca;
        confl := PropagateLit(p, qhead - 1);
        SameDbTransitive(old(ca), c0, ca);
        StructBound(S());
        if confl == CREF_UNDEF {
          g := g + 1;
        }
      }
      CleanDirty(ca, watches);
      if confl != CREF_UNDEF {
        WatchInvLess(S(), g, LastLim(trailLim));
      }
    }

    // -------------------------------------------------------------- backtracking

    method InsertVarOrder(x: Var)
      requires x < |decision|
      modifies this`orderHeap
      ensures orderHeap == old(orderHeap) + if decision[x] then {x} else {}
    {
      if x !in orderHeap && decision[x] {
        orderHeap := orderHeap + {x};
      }
    }

    /** Unassign x, remember its phase if asked to, and put it back in the order heap. */
    method UndoAt(x: Var, save: bool, neg: bool)
      requires HeapOk(assigns, decision, polarity, orderHeap) && x < |assigns|
      modifies this`assigns, this`polarity, this`orderHeap
      ensures assigns == old(assigns)[x := Undef] && HeapOk(assigns, decision, polarity, orderHeap)
    {
      assigns := assigns[x := Undef];
      if save {
        polarity := polarity[x := neg];
      }
      InsertVarOrder(x);
    }

    method CancelUntil(level: nat)
      requires Struct(S()) && HeapOk(assigns, decision, polarity, orderHeap)
      modifies this`assigns, this`polarity, this`orderHeap, this`qhead, this`trail, this`trailLim
      ensures if old(|trailLim|) > level then S() == Cancelled(old(S()), level) && qhead == |trail|
              else S() == old(S()) && qhead == old(qhead)
      ensures HeapOk(assigns, decision, polarity, orderHeap)
    {
      if |trailLim| > level {
        UndoStart(S(), level);
        hide Struct, HeapOk, UndoneTo, Undone;
        var c := |trail| - 1;
        while c >= trailLim[level]
          invariant trail == old(trail) && trailLim == old(trailLim)
          invariant trailLim[level] - 1 <= c < |trail|
          invariant UndoneTo(old(assigns), assigns, pos, c + 1)
          invariant HeapOk(assigns, decision, polarity, orderHeap)
        {
          UndoStep(old(S()), assigns, c);
          UndoAt(trail[c].v, phaseSaving > 1 || (phaseSaving == 1 && c > trailLim[|trailLim| - 1]), trail[c].neg);
          c := c - 1;
        }
        UndoDone(old(assigns), assigns, pos, trailLim[level]);
        qhead := trailLim[level];
        trail := trail[..trailLim[level]];
        trailLim := trailLim[..level];
      }
    }

    // -------------------------------------------------------------- conflict analysis

    /** Mark the unmarked literals of a clause: those of the current level stay open, lower ones are learnt. */
    method AddLiterals(cr: CRef, j0: nat, out0: seq<Lit>, ghost open0: set<Var>, pathC0: nat, ghost bound: nat)
      returns (out: seq<Lit>, ghost open: set<Var>, pathC: nat)
      requires Struct(S()) && Means(formula, S()) && Marks(S(), seen, out0, open0) && trailLim != []
      requires Live(ca, cr) && j0 <= |ca[cr].lits| && pathC0 == |open0|
      requires forall k :: j0 <= k < |ca[cr].lits| ==>
                 var q := ca[cr].lits[k]; IsFalse(assigns, q) && q.v < |pos| && pos[q.v] < bound
      requires OpenBelow(pos, open0, bound)
      requires Pending(formula, S(), out0, open0, ca[cr].lits, j0)
      modifies this`seen
      ensures Marks(S(), seen, out, open) && pathC == |open| && open0 <= open
      ensures OpenBelow(pos, open, bound)
      ensures Pending(formula, S(), out, open, ca[cr].lits, |ca[cr].lits|)
      ensures LevelOpen(vardata, ca[cr].lits, open, |trailLim|, j0, |ca[cr].lits|)
      ensures open + VarSet(out) == open0 + VarSet(out0) + LevelVars(ca[cr].lits, vardata, j0, |ca[cr].lits|)
    {
      hide SemOk, Facts, Pending, Struct, Marks, VarSet, LevelVars, Means, LevelOpen, OpenBelow;
      LevelVarsNone(ca[cr].lits, vardata, j0);
      AddStart(vardata, ca[cr].lits, open0, |trailLim|, j0);
      out, open, pathC := out0, open0, pathC0;
      var j := j0;
      while j < |ca[cr].lits|
        invariant j0 <= j <= |ca[cr].lits|
        invariant Marks(S(), seen, out, open) && pathC == |open| && open0 <= open
        invariant OpenBelow(pos, open, bound)
        invariant Pending(formula, S(), out, open, ca[cr].lits, j)
        invariant LevelOpen(vardata, ca[cr].lits, open, |trailLim|, j0, j)
        invariant open + VarSet(out) == open0 + VarSet(out0) + LevelVars(ca[cr].lits, vardata, j0, j)
      {
        ghost var before := open;
        out, open, pathC := AddLiteral(cr, j, out, open, pathC);
        LevelVarsStep(ca[cr].lits, vardata, j0, j);
        AddStep(pos, vardata, ca[cr].lits, before, open, |trailLim|, j0, j, bound);
        j := j + 1;
      }
    }

    method AddLiteral(cr: CRef, j: nat, out0: seq<Lit>, ghost open0: set<Var>, pathC0: nat)
      returns (out: seq<Lit>, ghost open: set<Var>, pathC: nat)
      requires Struct(S()) && Means(formula, S()) && Marks(S(), seen, out0, open0) && trailLim != []
      requires Live(ca, cr) && j < |ca[cr].lits| && pathC0 == |open0|
      requires IsFalse(assigns, ca[cr].lits[j])
      requires Pending(formula, S(), out0, open0, ca[cr].lits, j)
      modifies this`seen
      ensures Marks(S(), seen, out, open) && pathC == |open|
      ensures open == open0 || open == open0 + {ca[cr].lits[j].v}
      ensures Pending(formula, S(), out, open, ca[cr].lits, j + 1)
      ensures LevelOpen(vardata, ca[cr].lits, open, |trailLim|, j, j + 1)
      ensures var v := ca[cr].lits[j].v;
              v < |vardata|
              && open + VarSet(out) == open0 + VarSet(out0) + if vardata[v].level > 0 then {v} else {}
    {
      hide SemOk, Facts, Pending, Struct, Marks, VarSet;
      out, open, pathC := out0, open0, pathC0;
      var q := ca[cr].lits[j];
      AddableLit(S(), seen, out, open, q);
      if !seen[q.v] && vardata[q.v].level > 0 {
        if vardata[q.v].level >= |trailLim| {
          MarksOpen(S(), seen, out, open, q);
          PendingOpen(formula, S(), out, open, ca[cr].lits, j);
          open := open + {q.v};
          pathC := pathC + 1;
        } else {
          MarksOut(S(), seen, out, open, q);
          PendingOut(formula, S(), out, open, ca[cr].lits, j);
          VarSetPush(out, q);
          out := out + [q];
        }
        seen := seen[q.v := true];
      } else {
        PendingSkip(formula, S(), seen, out, open, ca[cr].lits, j);
        MarkedListed(S(), seen, out, open, q.v);
      }
    }

    /** Walk down the trail to the next marked literal. */
    method NextSeen(index: int, ghost out: seq<Lit>, ghost open: set<Var>) returns (p: Lit, i: nat)
      requires Struct(S()) && Marks(S(), seen, out, open) && trailLim != []
      requires open != {} && -1 <= index < |trail| && OpenBelow(pos, open, index + 1)
      ensures i <= index && LastOpen(S(), open, p, i)
    {
      hide Struct, Marks, LastOpen, OpenBelow;
      WalkBound(S(), seen, out, open, index);
      i := index;
      while !seen[trail[i].v]
        invariant LastLim(trailLim) <= i <= index && trail[i].v < |seen|
        invariant OpenBelow(pos, open, i + 1)
        decreases i
      {
        WalkDown(S(), seen, out, open, i);
        WalkBound(S(), seen, out, open, i - 1);
        i := i - 1;
      }
      p := trail[i];
      WalkStop(S(), seen, out, open, i);
    }

    /** The literal p at trail position i was taken off the open ones; what is left is in out and open. */
    ghost predicate Resolving(out: seq<Lit>, open: set<Var>, p: Lit, i: nat)
      reads this
    {
      && Marks(S(), seen, out, open)
      && LastOpen(S(), open + {p.v}, p, i) && p.v !in open
      && Pending(formula, S(), out, open + {p.v}, [], 0)
      && (open != {} ==> ReasonAt(ca, assigns, pos, p, vardata[p.v].reason, i))
    }

    /** Select the next open literal, from position index down, and take it off. */
    method Select(index: int, out: seq<Lit>, ghost open0: set<Var>, cr: CRef)
      returns (p: Lit, i: nat, ghost open: set<Var>)
      requires Struct(S()) && Marks(S(), seen, out, open0) && trailLim != [] && 0 <= cr < |ca|
      requires open0 != {} && -1 <= index < |trail| && OpenBelow(pos, open0, index + 1)
      requires Pending(formula, S(), out, open0, ca[cr].lits, |ca[cr].lits|)
      modifies this`seen
      ensures i <= index && p.v in open0 && open == open0 - {p.v}
      ensures Resolving(out, open, p, i) && p.v < |vardata|
    {
      hide Struct, Marks, LastOpen, OpenBelow, Pending, ReasonAt;
      PendingDone(formula, S(), out, open0, ca[cr].lits);
      p, i := NextSeen(index, out, open0);
      LastOpenFacts(S(), open0, p, i);
      MarksFacts(S(), seen, out, open0, p.v);
      if open0 - {p.v} != {} {
        LastOpenReason(S(), seen, out, open0, p, i);
      }
      MarksClose(S(), seen, out, open0, p.v);
      seen := seen[p.v := false];
      open := open0 - {p.v};
      assert open + {p.v} == open0;
    }

    /** Absorb the reason of p, from its second literal on. */
    method AbsorbReason(p: Lit, i: nat, cr: CRef, out0: seq<Lit>, ghost open0: set<Var>, pathC0: nat)
      returns (out: seq<Lit>, ghost open: set<Var>, pathC: nat)
      requires Struct(S()) && Means(formula, S()) && trailLim != []
      requires Resolving(out0, open0, p, i) && open0 != {} && pathC0 == |open0| && p.v < |vardata|
      requires cr == vardata[p.v].reason
      modifies this`seen
      ensures Marks(S(), seen, out, open) && pathC == |open| && open != {} && OpenBelow(pos, open, i)
      ensures 0 <= cr < |ca| && Pending(formula, S(), out, open, ca[cr].lits, |ca[cr].lits|)
      ensures open + VarSet(out) == open0 + VarSet(out0) + LevelVars(ca[cr].lits, vardata, 1, |ca[cr].lits|)
    {
      hide SemOk, Facts, Struct, Marks, LastOpen, OpenBelow, Pending, TailFalse, LevelOpen, VarSet, LevelVars;
      LastOpenFacts(S(), open0 + {p.v}, p, i);
      assert open0 + {p.v} - {p.v} == open0;
      PendingResolve(formula, S(), out0, open0, p, cr, []);
      TailBelow(S(), cr, i);
      out, open, pathC := AddLiterals(cr, 1, out0, open0, pathC0, i);
    }

    /** Absorb the conflicting clause. */
    method AbsorbConflict(confl: CRef, ghost q: nat)
      returns (out: seq<Lit>, ghost open: set<Var>, pathC: nat)
      requires Struct(S()) && Means(formula, S()) && trailLim != []
      requires |seen| == |assigns| && forall v :: 0 <= v < |seen| ==> !seen[v]
      requires LastLim(trailLim) <= q < |trail| && Conflicting(ca, assigns, confl, trail[q])
      modifies this`seen
      ensures Marks(S(), seen, out, open) && pathC == |open| && open != {} && OpenBelow(pos, open, |trail|)
      ensures 0 <= confl < |ca| && Pending(formula, S(), out, open, ca[confl].lits, |ca[confl].lits|)
      ensures open + VarSet(out) == Causes(S(), confl)
    {
      VarSetEmpty();
      NoMarks(S(), seen);
      PendingStart(formula, S(), confl);
      ConflictBelow(S(), confl, trail[q]);
      hide SemOk, Facts, Pending, Struct, Marks, LevelOpen, VarSet, LevelVars;
      out, open, pathC := AddLiterals(confl, 0, [], {}, 0, |trail|);
      ConflictOpen(S(), confl, q, open);
    }

    /** Resolve the conflict backwards along the trail to the first unique implication point p. */
    method Derive(confl: CRef, ghost q: nat) returns (p: Lit, out: seq<Lit>)
      requires Struct(S()) && Means(formula, S()) && trailLim != []
      requires |seen| == |assigns| && forall v :: 0 <= v < |seen| ==> !seen[v]
      requires LastLim(trailLim) <= q < |trail| && Conflicting(ca, assigns, confl, trail[q])
      modifies this`seen
      ensures Entails(formula, [Neg(p)] + out) && Marks(S(), seen, out, {})
      ensures Assigned(S(), p.v) && TrueLit(S(), p.v) == p && vardata[p.v].level == |trailLim|
      ensures FirstUip(S(), confl, p, out)
    {
      hide SemOk, Facts, Pending, Struct, Marks, Resolving, OpenBelow, Conflicting, Means, VarSet, Causes, Unravelling,
        FirstUip, Current;
      ghost var open, done: set<Var> := {}, {};
      var pathC: nat;
      out, open, pathC := AbsorbConflict(confl, q);
      UnravelStart(S(), confl, |trail|);
      var index: nat;
      p, index, open := SelectNext(confl, |trail| - 1, out, open, confl, done);
      pathC := pathC - 1;
      while pathC > 0
        invariant p.v < |vardata| && index < |trail|
        invariant pathC == |open| && Resolving(out, open, p, index)
        invariant Unravelling(S(), confl, index + 1, open + {p.v} + VarSet(out), done)
        decreases index
      {
        ghost var x := p.v;
        p, index, out, open, pathC := ResolveOne(confl, p, index, out, open, pathC, done);
        done := done + {x};
      }
      ResolvingDone(out, open, p, index);
      assert open + {p.v} + VarSet(out) == {p.v} + VarSet(out);
      UnravelEnd(S(), seen, confl, index, out, p, done);
    }

    /** Resolve with the reason of p and select the next literal. */
    method ResolveOne(ghost confl: CRef, p0: Lit, i0: nat, out0: seq<Lit>, ghost open0: set<Var>, pathC0: nat,
                      ghost done: set<Var>)
      returns (p: Lit, i: nat, out: seq<Lit>, ghost open: set<Var>, pathC: nat)
      requires Struct(S()) && Means(formula, S()) && trailLim != []
      requires i0 < |trail| && p0.v < |vardata| && pathC0 == |open0| > 0 && Resolving(out0, open0, p0, i0)
      requires Unravelling(S(), confl, i0 + 1, open0 + {p0.v} + VarSet(out0), done)
      modifies this`seen
      ensures i < i0 && p.v < |vardata| && pathC == |open| && Resolving(out, open, p, i)
      ensures Unravelling(S(), confl, i + 1, open + {p.v} + VarSet(out), done + {p0.v})
    {
      hide Struct, Means, Resolving, Unravelling, VarSet, Marks, OpenBelow, Pending;
      var cr := vardata[p0.v].reason;
      out, open, pathC := Resolve(confl, p0, i0, cr, out0, open0, pathC0, done);
      p, i, open := SelectNext(confl, i0 - 1, out, open, cr, done + {p0.v});
      pathC := pathC - 1;
    }

    /** Resolve with the reason of p, which is not the only literal of the current level left. */
    method Resolve(ghost confl: CRef, p: Lit, i: nat, cr: CRef, out0: seq<Lit>, ghost open0: set<Var>, pathC0: nat,
                   ghost done: set<Var>)
      returns (out: seq<Lit>, ghost open: set<Var>, pathC: nat)
      requires Struct(S()) && Means(formula, S()) && trailLim != []
      requires Resolving(out0, open0, p, i) && pathC0 == |open0| > 0 && p.v < |vardata|
      requires cr == vardata[p.v].reason
      requires Unravelling(S(), confl, i + 1, open0 + {p.v} + VarSet(out0), done)
      modifies this`seen
      ensures Marks(S(), seen, out, open) && pathC == |open| && open != {} && OpenBelow(pos, open, i)
      ensures 0 <= cr < |ca| && Pending(formula, S(), out, open, ca[cr].lits, |ca[cr].lits|)
      ensures Unravelling(S(), confl, i, open + VarSet(out), done + {p.v})
    {
      hide Struct, Means, Resolving, Unravelling, VarSet, Marks, OpenBelow, Pending, LevelVars, Current;
      ghost var u := ResolvingOther(out0, open0, p, i);
      out, open, pathC := AbsorbReason(p, i, cr, out0, open0, pathC0);
      UnravelStep(S(), confl, i, open0 + {p.v} + VarSet(out0), done, p.v, u, open + VarSet(out));
    }

    /** Select the next open literal; what is left is the same. */
    method SelectNext(ghost confl: CRef, index: int, out: seq<Lit>, ghost open0: set<Var>, cr: CRef,
                      ghost done: set<Var>)
      returns (p: Lit, i: nat, ghost open: set<Var>)
      requires Struct(S()) && Marks(S(), seen, out, open0) && trailLim != [] && 0 <= cr < |ca|
      requires open0 != {} && -1 <= index < |trail| && OpenBelow(pos, open0, index + 1)
      requires Pending(formula, S(), out, open0, ca[cr].lits, |ca[cr].lits|)
      requires Unravelling(S(), confl, index + 1, open0 + VarSet(out), done)
      modifies this`seen
      ensures i <= index && p.v in open0 && open == open0 - {p.v}
      ensures Resolving(out, open, p, i) && p.v < |vardata|
      ensures Unravelling(S(), confl, i + 1, open + {p.v} + VarSet(out), done)
    {
      hide Struct, Marks, OpenBelow, Pending, Unravelling, VarSet, Resolving;
      p, i, open := Select(index, out, open0, cr);
      assert open + {p.v} + VarSet(out) == open0 + VarSet(out);
      UnravelDown(S(), confl, index + 1, i + 1, open0 + VarSet(out), done);
    }

    /** Something else of the current level is left, earlier on the trail. */
    lemma ResolvingOther(out: seq<Lit>, open: set<Var>, p: Lit, i: nat) returns (u: Var)
      requires Resolving(out, open, p, i) && |open| > 0 && trailLim != []
      ensures u in open && Current(S(), u) && S().pos[u] < i
      ensures Current(S(), p.v) && S().pos[p.v] == i
      ensures vardata[p.v].reason == S().vd[p.v].reason && 0 <= vardata[p.v].reason < |ca| && S().ca == ca
    {
      hide Pending, TailFalse;
      u :| u in open;
      assert open + {p.v} - {p.v} == open;
    }

    lemma ResolvingDone(out: seq<Lit>, open: set<Var>, p: Lit, i: nat)
      requires Resolving(out, open, p, i) && |open| == 0
      ensures Entails(formula, [Neg(p)] + out) && Marks(S(), seen, out, {})
      ensures Assigned(S(), p.v) && TrueLit(S(), p.v) == p && vardata[p.v].level == |trailLim|
      ensures Current(S(), p.v) && pos[p.v] == i && LastLim(trailLim) <= i
    {
      assert open == {};
      assert open + {p.v} == {p.v};
      DerivedEntailed(formula, S(), out, p, []);
    }

    // -------------------------------------------------------------- minimising the learnt clause

    /** Levels modulo 32 stand for the bits of the source's 32-bit level abstraction. */
    function AbstractLevel(x: Var): nat
      requires x < |vardata|
      reads this
    {
      vardata[x].level % 32
    }

    /** Examine the antecedents of u: mark those that may be removable; fail on one that cannot be. */
    method ScanReason(u: Lit, cr: CRef, stack0: seq<Lit>, abs: set<nat>, ghost seen0: seq<bool>, ghost p: Lit, top: nat)
      returns (ok: bool, stack: seq<Lit>)
      requires Struct(S()) && ImpliedFalse(S(), u) && cr == vardata[u.v].reason
      requires top <= |analyzeToclear| && MarkedBy(seen0, seen, analyzeToclear, top)
      requires Explored(S(), seen0, seen, p, VarSet(stack0) + {u.v})
      requires forall k :: 0 <= k < |stack0| ==> ImpliedFalse(S(), stack0[k])
      requires Exploring(S(), MarkSet(seen0), seen, abs, p.v) && Via(S(), MarkSet(seen0), p.v, u.v)
      requires StackVia(S(), MarkSet(seen0), p.v, stack0)
      modifies this`seen, this`analyzeToclear
      ensures ok ==> Exploring(S(), MarkSet(seen0), seen, abs, p.v) && StackVia(S(), MarkSet(seen0), p.v, stack)
      ensures !ok ==> !Removable(S(), MarkSet(seen0), abs, p.v)
      ensures old(analyzeToclear) <= analyzeToclear && MarkedBy(seen0, seen, analyzeToclear, top)
      ensures ok ==>
                && Explored(S(), seen0, seen, p, VarSet(stack))
                && forall k :: 0 <= k < |stack| ==> ImpliedFalse(S(), stack[k])
      ensures ok ==> (seen == old(seen) && stack == stack0) || Unmarked(seen) < Unmarked(old(seen))
    {
      hide Struct, ScanInv, Explored, MarkedBy, Unmarked, VarSet, Exploring, StackVia, Via, MarkSet, Removable, Needs;
      ScanStart(S(), seen0, seen, p, stack0, u, analyzeToclear, top);
      var c := ca[cr].lits;
      stack := stack0;
      var i := 1;
      while i < |c|
        invariant 1 <= i
        invariant old(analyzeToclear) <= analyzeToclear
        invariant ScanInv(S(), seen0, seen, p, stack, u, analyzeToclear, top, c, i)
        invariant |seen| == |vardata| == |assigns|
        invariant (seen == old(seen) && stack == stack0) || Unmarked(seen) < Unmarked(old(seen))
        invariant Exploring(S(), MarkSet(seen0), seen, abs, p.v) && StackVia(S(), MarkSet(seen0), p.v, stack)
        decreases |c| - i
      {
        var q := c[i];
        if !seen[q.v] && vardata[q.v].level > 0 {
          NeedsLit(S(), u.v, c, i);
          ScanFacts(S(), seen0, seen, p, stack, u, analyzeToclear, top, c, i);
          UnmarkedBefore(seen0, seen, analyzeToclear, top, q.v);
          if vardata[q.v].reason != CREF_UNDEF && AbstractLevel(q.v) in abs {
            ScanMark(S(), seen0, seen, p, stack, u, analyzeToclear, top, c, i);
            SearchMark(S(), MarkSet(seen0), seen, abs, p.v, u.v, q.v);
            StackPush(S(), MarkSet(seen0), p.v, stack, q);
            seen := seen[q.v := true];
            stack := stack + [q];
            analyzeToclear := analyzeToclear + [q];
          } else {
            SearchFails(S(), MarkSet(seen0), abs, p.v, u.v, q.v);
            return false, stack;
          }
        } else {
          ScanSkip(S(), seen0, seen, p, stack, u, analyzeToclear, top, c, i);
        }
        i := i + 1;
      }
      ok := true;
      ScanEnd(S(), seen0, seen, p, stack, u, analyzeToclear, top, c, i);
    }

    /** Is p implied by marked literals? On success the marks set on the way stay; on failure they go. */
    method LitRedundant(p: Lit, abs: set<nat>) returns (red: bool)
      requires Struct(S()) && |seen| == |assigns| && ImpliedFalse(S(), p)
      modifies this`seen, this`analyzeToclear
      ensures red ==>
                && old(analyzeToclear) <= analyzeToclear
                && MarkedBy(old(seen), seen, analyzeToclear, |old(analyzeToclear)|)
                && Redundant(S(), old(seen), seen, p)
      ensures !red ==> seen == old(seen) && analyzeToclear == old(analyzeToclear)
      ensures red <==> Removable(S(), MarkSet(old(seen)), abs, p.v)
      ensures red ==> forall v: Var :: v in MarkSet(seen) && v !in MarkSet(old(seen)) ==>
                        Passable(S(), abs, v) && Removable(S(), MarkSet(old(seen)), abs, v)
    {
      assert p.v < |seen| == |S().assigns|;
      hide *;
      var stack := [p];
      var top := |analyzeToclear|;
      ExploreStart(S(), seen, p, analyzeToclear);
      SearchStart(S(), seen, abs, p.v);
      WaitingStart(S(), MarkSet(seen), p);
      while stack != []
        invariant old(analyzeToclear) <= analyzeToclear && MarkedBy(old(seen), seen, analyzeToclear, top)
        invariant Explored(S(), old(seen), seen, p, VarSet(stack))
        invariant Waiting(S(), MarkSet(old(seen)), p.v, stack)
        invariant Exploring(S(), MarkSet(old(seen)), seen, abs, p.v)
        decreases Unmarked(seen), |stack|
      {
        var ok: bool;
        ok, stack := ExploreOne(stack, abs, old(seen), p, top);
        if !ok {
          Unmark(top, old(seen));
          return false;
        }
      }
      RedundantIntro(S(), old(seen), seen, p, stack);
      AllRemovable(S(), old(seen), seen, abs, p);
      return true;
    }

    /** Explore the antecedents of the literal on top of the stack. */
    method ExploreOne(stack0: seq<Lit>, abs: set<nat>, ghost seen0: seq<bool>, ghost p: Lit, top: nat)
      returns (ok: bool, stack: seq<Lit>)
      requires Struct(S()) && stack0 != [] && Waiting(S(), MarkSet(seen0), p.v, stack0)
      requires top <= |analyzeToclear| && MarkedBy(seen0, seen, analyzeToclear, top)
      requires Explored(S(), seen0, seen, p, VarSet(stack0)) && Exploring(S(), MarkSet(seen0), seen, abs, p.v)
      modifies this`seen, this`analyzeToclear
      ensures old(analyzeToclear) <= analyzeToclear && MarkedBy(seen0, seen, analyzeToclear, top)
      ensures ok ==> Explored(S(), seen0, seen, p, VarSet(stack)) && Exploring(S(), MarkSet(seen0), seen, abs, p.v)
      ensures ok ==> Waiting(S(), MarkSet(seen0), p.v, stack)
      ensures ok ==> (seen == old(seen) && |stack| < |stack0|) || Unmarked(seen) < Unmarked(old(seen))
      ensures !ok ==> !Removable(S(), MarkSet(seen0), abs, p.v)
    {
      hide Struct, Explored, MarkedBy, Unmarked, VarSet, Exploring, StackVia, Via, MarkSet, Removable;
      var u := stack0[|stack0| - 1];
      VarSetPop(stack0);
      StackPop(S(), MarkSet(seen0), p.v, stack0);
      ok, stack := ScanReason(u, vardata[u.v].reason, stack0[..|stack0| - 1], abs, seen0, p, top);
    }

    /** Clear the marks listed from position `top` on, and drop them from the list. */
    method Unmark(top: nat, ghost seen0: seq<bool>)
      requires top <= |analyzeToclear| && MarkedBy(seen0, seen, analyzeToclear, top)
      modifies this`seen, this`analyzeToclear
      ensures seen == seen0 && analyzeToclear == old(analyzeToclear)[..top]
    {
      var j := top;
      while j < |analyzeToclear|
        invariant top <= j <= |analyzeToclear| && analyzeToclear == old(analyzeToclear)
        invariant MarkedBy(seen0, seen, analyzeToclear, j)
      {
        seen := seen[analyzeToclear[j].v := false];
        j := j + 1;
      }
      assert seen == seen0;
      analyzeToclear := analyzeToclear[..top];
    }

    /** Drop the literals of the learnt clause that the other ones make redundant. */
    method Minimise(out: seq<Lit>) returns (kept: seq<Lit>)
      requires Struct(S()) && MinInv(S(), seen, [], out, analyzeToclear)
      modifies this`seen, this`analyzeToclear
      ensures MinInv(S(), seen, kept, [], analyzeToclear)
      ensures forall v :: 0 <= v < |old(seen)| && old(seen)[v] ==> v < |seen| && seen[v]
      ensures forall x :: x in kept <==> x in out && !Dropped(S(), ccminMode, MarkSet(old(seen)), out, x)
      ensures NoPair(out) ==> NoPair(kept)
    {
      hide Struct, MinInv, Removable, DirectlyCovered, MarkSet, AbsLevels, NoPair, BasicKept;
      if ccminMode == 2 {
        kept := MinimiseDeep(out);
      } else if ccminMode == 1 {
        MinLits(S(), seen, [], out, analyzeToclear);
        kept := MinimiseBasic(out);
        BasicExact(S(), seen, out);
      } else {
        kept := out;
        MinAll(S(), seen, out, analyzeToclear);
      }
    }

    /** Mode 2: a literal goes when a search through the reasons finds it implied by marked literals. */
    method MinimiseDeep(out: seq<Lit>) returns (kept: seq<Lit>)
      requires Struct(S()) && MinInv(S(), seen, [], out, analyzeToclear)
      modifies this`seen, this`analyzeToclear
      ensures MinInv(S(), seen, kept, [], analyzeToclear)
      ensures forall v :: 0 <= v < |old(seen)| && old(seen)[v] ==> v < |seen| && seen[v]
      ensures forall x :: x in kept <==> x in out && !Removable(S(), MarkSet(old(seen)), AbsLevels(S(), out), x.v)
      ensures NoPair(out) ==> NoPair(kept)
    {
      kept := [];
      hide *;
      var abs := LevelBits(out);
      var i := 0;
      KeptNothing(out);
      RetainedStart(S(), seen, abs);
      assert out[0..] == out;
      while i < |out|
        invariant 0 <= i <= |out|
        invariant MinInv(S(), seen, kept, out[i..], analyzeToclear)
        invariant Retained(S(), MarkSet(old(seen)), seen, abs)
        invariant KeptOf(kept, out, i)
        invariant forall x :: x in kept <==> x in out[..i] && !Removable(S(), MarkSet(old(seen)), abs, x.v)
      {
        assert out[i..][0] == out[i] && out[i..][1..] == out[i + 1..] && out[..i + 1] == out[..i] + [out[i]];
        KeptPush(kept, out, i);
        kept := MinimiseOne(kept, out[i..], abs, MarkSet(old(seen)));
        i := i + 1;
      }
      assert out[i..] == [] && out[..i] == out;
      KeptIn(kept, out, i);
      RetainedMarks(S(), old(seen), seen, abs);
    }

    /** The abstraction of the levels of these literals. */
    method LevelBits(out: seq<Lit>) returns (abs: set<nat>)
      requires Struct(S()) && MinInv(S(), seen, [], out, analyzeToclear)
      ensures abs == AbsLevels(S(), out)
    {
      MinLits(S(), seen, [], out, analyzeToclear);
      hide Struct, MinInv;
      abs := {};
      var n := 0;
      while n < |out|
        invariant 0 <= n <= |out| && abs == AbsLevels(S(), out[..n])
      {
        assert out[..n + 1] == out[..n] + [out[n]];
        AbsLevelsPush(S(), out[..n], out[n]);
        abs := abs + {AbstractLevel(out[n].v)};
        n := n + 1;
      }
      assert out[..n] == out;
    }

    method MinimiseOne(kept0: seq<Lit>, rest: seq<Lit>, abs: set<nat>, ghost marked: set<Var>)
      returns (kept: seq<Lit>)
      requires Struct(S()) && rest != [] && MinInv(S(), seen, kept0, rest, analyzeToclear)
      requires Retained(S(), marked, seen, abs)
      modifies this`seen, this`analyzeToclear
      ensures MinInv(S(), seen, kept, rest[1..], analyzeToclear) && Retained(S(), marked, seen, abs)
      ensures kept == if Removable(S(), marked, abs, rest[0].v) then kept0 else kept0 + [rest[0]]
    {
      hide Struct, MinInv, Redundant, Retained, MarkSet, Passable, MarkedBy;
      MinFacts(S(), seen, kept0, rest, analyzeToclear);
      MinKeep(S(), seen, kept0, rest, analyzeToclear);
      if vardata[rest[0].v].reason == CREF_UNDEF {
        return kept0 + [rest[0]];
      }
      ghost var seen0, t0 := seen, analyzeToclear;
      SameVerdict(S(), marked, seen, abs, rest[0].v);
      hide Removable;
      var red := LitRedundant(rest[0], abs);
      if red {
        MinDrop(S(), seen0, seen, kept0, rest, t0, analyzeToclear);
        MarksGrow(seen0, seen, analyzeToclear, |t0|);
        RetainedMore(S(), marked, seen0, seen, abs);
        return kept0;
      }
      return kept0 + [rest[0]];
    }

    /** Mode 1: a literal goes when its own reason has only marked or level-0 literals besides it. */
    method MinimiseBasic(out: seq<Lit>) returns (kept: seq<Lit>)
      requires Struct(S()) && MinInv(S(), seen, [], out, analyzeToclear)
      ensures MinInv(S(), seen, kept, [], analyzeToclear)
      ensures kept == BasicKept(S(), seen, out)
      ensures forall x :: x in kept ==> x in out
      ensures NoPair(out) ==> NoPair(kept)
    {
      kept := [];
      hide Struct, MinInv, Redundant, ReasonCovered, BasicKept;
      var i := 0;
      assert out[0..] == out && out[..0] == [] && BasicKept(S(), seen, []) == [] by {
        BasicNothing(S(), seen);
      }
      while i < |out|
        invariant 0 <= i <= |out|
        invariant MinInv(S(), seen, kept, out[i..], analyzeToclear)
        invariant KeptOf(kept, out, i) && kept == BasicKept(S(), seen, out[..i])
      {
        assert out[i..][0] == out[i] && out[i..][1..] == out[i + 1..];
        BasicStep(S(), seen, out, i);
        KeptPush(kept, out, i);
        MinKeep(S(), seen, kept, out[i..], analyzeToclear);
        MinFacts(S(), seen, kept, out[i..], analyzeToclear);
        var red := ReasonMarked(out[i]);
        if red {
          MinDrop(S(), seen, seen, kept, out[i..], analyzeToclear, analyzeToclear);
        } else {
          kept := kept + [out[i]];
        }
        i := i + 1;
      }
      assert out[i..] == [] && out[..i] == out;
      KeptIn(kept, out, i);
    }

    method ReasonMarked(p: Lit) returns (red: bool)
      requires Struct(S()) && |seen| == |assigns| && IsFalse(assigns, p)
      ensures red ==> Redundant(S(), seen, seen, p) && MarkedBy(seen, seen, analyzeToclear, |analyzeToclear|)
      ensures red <==> ReasonCovered(S(), seen, p)
    {
      hide DbOk, WatchKeys, WatchSound, WatchComplete, Redundant, MarkedBy;
      FalseAssigned(S(), p);
      if vardata[p.v].reason == CREF_UNDEF {
        return false;
      }
      ReasonLive(S(), p.v);
      hide Struct, TrailOk, LimOk, LevelOk, ReasonOk;
      var c := ca[vardata[p.v].reason].lits;
      var k := 1;
      while k < |c|
        invariant 1 <= k && PrefixMarked(c, vardata, seen, k)
        decreases |c| - k
      {
        if !seen[c[k].v] && vardata[c[k].v].level > 0 {
          return false;
        }
        k := k + 1;
      }
      RedundantNow(S(), seen, p, analyzeToclear);
      return true;
    }

    /** Bring a literal of the highest level below the first one to position 1. */
    method SecondWatch(c: seq<Lit>) returns (d: seq<Lit>, bt: nat)
      requires AlmostAsserting(S(), c) && trailLim != []
      ensures Asserting(S(), d, bt) && SameLits(c, d) && d[0] == c[0]
    {
      if |c| == 1 {
        return c, 0;
      }
      var m, i := 1, 2;
      while i < |c|
        invariant 1 <= m < |c| && 2 <= i <= |c|
        invariant forall k :: 1 <= k < i ==> vardata[c[k].v].level <= vardata[c[m].v].level
      {
        if vardata[c[i].v].level > vardata[c[m].v].level {
          m := i;
        }
        i := i + 1;
      }
      SwapAsserting(S(), c, m);
      d := Swap(c, m, 1);
      bt := vardata[d[1].v].level;
    }

    method ClearSeen()
      requires forall v :: 0 <= v < |seen| && seen[v] ==> HasVar(analyzeToclear, v)
      requires forall k :: 0 <= k < |analyzeToclear| ==> analyzeToclear[k].v < |seen|
      modifies this`seen
      ensures |seen| == |old(seen)| && forall v :: 0 <= v < |seen| ==> !seen[v]
    {
      var j := 0;
      while j < |analyzeToclear|
        invariant 0 <= j <= |analyzeToclear| && |seen| == |old(seen)|
        invariant forall v :: 0 <= v < |seen| && seen[v] ==>
                    exists k :: j <= k < |analyzeToclear| && analyzeToclear[k].v == v
      {
        seen := seen[analyzeToclear[j].v := false];
        j := j + 1;
      }
    }

    ghost predicate NothingSeen()
      reads this
    {
      |seen| == |assigns| && forall v :: 0 <= v < |seen| ==> !seen[v]
    }

    /** Derive an asserting clause from a conflict. */
    method Analyze(confl: CRef, ghost q: nat) returns (learnt: seq<Lit>, bt: nat)
      requires Struct(S()) && Means(formula, S()) && trailLim != [] && NothingSeen()
      requires LastLim(trailLim) <= q < |trail| && Conflicting(ca, assigns, confl, trail[q])
      modifies this`seen, this`analyzeToclear
      ensures Asserting(S(), learnt, bt) && Entails(formula, learnt) && NothingSeen()
      ensures Analysed(S(), ccminMode, confl, learnt)
    {
      hide Struct, SemOk, Facts, Conflicting, MinInv, Marks, NoPair, Entails, HasVar, FirstUip, Dropped, MarkSet,
        VarSet, Analysed, SameLits, Means;
      var p, out := Derive(confl, q);
      MarksShape(S(), seen, out);
      MinStart(S(), seen, Neg(p), out);
      ghost var seen0 := seen;
      analyzeToclear := [Neg(p)] + out;
      var kept := Minimise(out);
      MinimisedFromMarks(formula, S(), seen0, seen, Neg(p), out, kept, analyzeToclear);
      DerivedShape(S(), seen0, p, out, kept);
      MarksExact(S(), seen0, out);
      learnt, bt := SecondWatch([Neg(p)] + kept);
      AnalysedClause(S(), ccminMode, confl, p, out, kept, learnt);
      SameLitsEntails(formula, [Neg(p)] + kept, learnt);
      MinCleared(S(), seen, kept, analyzeToclear);
      ClearSeen();
    }

    /** Explain why p is true in terms of the decisions; the result is left in `conflict`. */
    method AnalyzeFinal(p: Lit)
      requires Struct(S()) && Means(formula, S()) && NothingSeen() && IsTrue(assigns, p)
      modifies this`seen, this`conflict
      ensures Entails(formula, conflict) && FinalLits(S(), p, conflict) && NothingSeen() && conflict != []
      ensures ConflictExact(S(), p, conflict)
    {
      conflict := [p];
      assert |seen| == |assigns| && forall v :: 0 <= v < |seen| ==> !seen[v];
      hide *;
      if |trailLim| == 0 {
        FinalRoot(formula, S(), p);
        TraceRoot(S(), p);
        return;
      }
      FinalStart(formula, S(), seen, p);
      FinalLitsStart(S(), p);
      TraceStart(S(), p);
      seen := seen[p.v := true];
      ghost var open, done := WalkBack(p);
      FinalEnd(formula, S(), seen, open, p, conflict);
      TraceEnd(S(), seen, p, conflict, open, done);
      ClearMark(p.v);
    }

    /** Walk the trail back to the first decision, from p alone being marked. */
    method WalkBack(p: Lit) returns (ghost open: set<Var>, ghost done: set<Var>)
      requires Struct(S()) && Means(formula, S()) && trailLim != [] && p in conflict
      requires FinalMarks(S(), seen, {p.v}, p, |trail|) && Tracing(S(), p, conflict, {p.v}, {})
      requires Pending(formula, S(), conflict, {p.v}, [], 0) && FinalLits(S(), p, conflict)
      modifies this`seen, this`conflict
      ensures |seen| == |old(seen)| && p in conflict
      ensures FinalMarks(S(), seen, open, p, trailLim[0]) && Tracing(S(), p, conflict, open, done)
      ensures Pending(formula, S(), conflict, open, [], 0) && FinalLits(S(), p, conflict)
    {
      assert S().trail == trail && S().lim == trailLim;
      hide *;
      open, done := {p.v}, {};
      var i: nat := |trail|;
      TrailLimBound(S());
      while i > trailLim[0]
        invariant trailLim[0] <= i <= |trail| && |seen| == |old(seen)| && p in conflict
        invariant FinalMarks(S(), seen, open, p, i) && Tracing(S(), p, conflict, open, done)
        invariant Pending(formula, S(), conflict, open, [], 0) && FinalLits(S(), p, conflict)
      {
        i := i - 1;
        open, done := FinalStep(p, i, open, done);
      }
    }

    method ClearMark(v: Var)
      requires v < |seen| == |assigns| && forall u :: 0 <= u < |seen| && u != v ==> !seen[u]
      modifies this`seen
      ensures NothingSeen()
    {
      seen := seen[v := false];
    }

    /** Process trail position i: a marked decision joins the conflict, a marked implication passes its mark on. */
    method FinalStep(p: Lit, i: nat, ghost open0: set<Var>, ghost done0: set<Var>)
      returns (ghost open: set<Var>, ghost done: set<Var>)
      requires Struct(S()) && Means(formula, S()) && i < |trail| && trailLim != [] && trailLim[0] <= i
      requires FinalMarks(S(), seen, open0, p, i + 1) && Tracing(S(), p, conflict, open0, done0) && p in conflict
      requires Pending(formula, S(), conflict, open0, [], 0) && FinalLits(S(), p, conflict)
      modifies this`seen, this`conflict
      ensures |seen| == |old(seen)| && p in conflict
      ensures FinalMarks(S(), seen, open, p, i) && Tracing(S(), p, conflict, open, done)
      ensures Pending(formula, S(), conflict, open, [], 0) && FinalLits(S(), p, conflict)
    {
      hide Struct, SemOk, Facts, Pending, FinalMarks, FinalLits, Tracing, Antecedents;
      FinalBounds(S(), seen, open0, p, i);
      var x := trail[i].v;
      open, done := open0, done0;
      if seen[x] {
        if vardata[x].reason == CREF_UNDEF {
          FinalDecision(formula, S(), seen, open, p, conflict, i);
          TraceDecision(S(), p, conflict, open, done, i);
          conflict := conflict + [Neg(trail[i])];
          seen := seen[x := false];
          open := open - {x};
        } else {
          FinalResolve(formula, S(), seen, open, p, conflict, i);
          seen := seen[x := false];
          open := MarkReason(p, vardata[x].reason, i, open - {x});
          TraceResolve(S(), p, conflict, open0, done0, i, open);
        }
        done := done + {x};
      } else {
        FinalSkip(S(), seen, open, p, i);
      }
    }

    method MarkReason(p: Lit, cr: CRef, ghost i: nat, ghost open0: set<Var>) returns (ghost open: set<Var>)
      requires Struct(S()) && Means(formula, S()) && Live(ca, cr)
      requires |ca[cr].lits| > 0 && TailFalse(ca[cr].lits, assigns, pos, i)
      requires FinalMarks(S(), seen, open0, p, i)
      requires Pending(formula, S(), conflict, open0, ca[cr].lits, 1)
      modifies this`seen
      ensures |seen| == |old(seen)| && FinalMarks(S(), seen, open, p, i)
      ensures Pending(formula, S(), conflict, open, [], 0)
      ensures open == open0 + Antecedents(ca[cr].lits, vardata, |ca[cr].lits|)
    {
      var c := ca[cr].lits;
      hide *;
      open := open0;
      AntecedentsNone(open0, c, vardata);
      TailLits(c, assigns, pos, i);
      var j := 1;
      while j < |c|
        invariant 1 <= j <= |c| && |seen| == |old(seen)|
        invariant FinalMarks(S(), seen, open, p, i) && open == open0 + Antecedents(c, vardata, j)
        invariant Pending(formula, S(), conflict, open, c, j)
      {
        ghost var marked := open;
        open := MarkLit(p, c, j, i, marked);
        AntecedentsStep(open0, c, vardata, j);
        j := j + 1;
      }
      PendingEmpty(formula, S(), conflict, open, c, j);
    }

    /** Mark the variable of one literal of a reason, unless it is a level-0 fact. */
    method MarkLit(p: Lit, c: seq<Lit>, j: nat, ghost i: nat, ghost open0: set<Var>) returns (ghost open: set<Var>)
      requires Struct(S()) && Means(formula, S()) && FinalMarks(S(), seen, open0, p, i)
      requires j < |c| && IsFalse(assigns, c[j]) && c[j].v < |pos| && pos[c[j].v] < i
      requires Pending(formula, S(), conflict, open0, c, j)
      modifies this`seen
      ensures |seen| == |old(seen)| && FinalMarks(S(), seen, open, p, i)
      ensures Pending(formula, S(), conflict, open, c, j + 1)
      ensures c[j].v < |vardata| && open == open0 + if vardata[c[j].v].level > 0 then {c[j].v} else {}
    {
      hide Struct, Means, Pending, FinalMarks;
      FinalMark(formula, S(), seen, open0, p, conflict, c, j, i);
      open := open0;
      if vardata[c[j].v].level > 0 {
        seen := seen[c[j].v := true];
        open := open + {c[j].v};
      }
    }

    // -------------------------------------------------------------- the clause database

    /** Holds between any two public operations and between the steps of search. */
    ghost predicate Base()
      reads this
    {
      && Core()
      && ListsOk(ca, clauses, learnts)
      && |activity| == |ca|
      && HeapOk(assigns, decision, polarity, orderHeap)
      && NothingSeen()
    }

    /** Allocate a clause and watch its first two literals. */
    method AllocAttach(c: seq<Lit>, learnt: bool) returns (cr: CRef)
      requires |c| >= 2 && Neg(c[0]) in watches && Neg(c[1]) in watches && c[0] != c[1]
      modifies this`ca, this`activity, this`watches
      ensures cr == |old(ca)| && S() == Attached(old(S()), c, learnt)
      ensures activity == old(activity) + [0.0]
    {
      cr := |ca|;
      ca := ca + [Clause(c, learnt, 0)];
      activity := activity + [0.0];
      watches := watches[Neg(c[0]) := watches[Neg(c[0])] + [Watcher(cr, c[1])]];
      watches := watches[Neg(c[1]) := watches[Neg(c[1])] + [Watcher(cr, c[0])]];
    }

    /** Raise the activity of a clause; if it becomes too large, all activities and the increment are scaled down. */
    method ClaBumpActivity(cr: CRef)
      requires 0 <= cr < |activity|
      modifies this`activity, this`claInc
      ensures |activity| == |old(activity)|
      ensures var scale := if old(activity)[cr] + old(claInc) > RESCALE then RESCALE else 1.0;
              && claInc * scale == old(claInc)
              && forall i :: 0 <= i < |activity| ==>
                   activity[i] * scale == old(activity)[i] + if i == cr then old(claInc) else 0.0
    {
      activity := activity[cr := activity[cr] + claInc];
      if activity[cr] > RESCALE {
        var a := activity;
        activity := seq(|a|, i requires 0 <= i < |a| => a[i] / RESCALE);
        claInc := claInc / RESCALE;
      }
    }

    /** Jump back to level bt and assert the learnt clause there. */
    method Backjump(c: seq<Lit>, bt: nat)
      requires Base() && Asserting(S(), c, bt) && Entails(formula, c)
      requires WatchInv(ca, watches, assigns, vardata, pos, LastLim(trailLim))
      modifies this`assigns, this`polarity, this`orderHeap, this`qhead, this`trail, this`trailLim, this`vardata,
               this`pos, this`ca, this`activity, this`claInc, this`watches, this`learnts
      ensures Base() && WatchInv(ca, watches, assigns, vardata, pos, qhead)
      ensures bt < |old(trailLim)| && trailLim == old(trailLim)[..bt] && |assigns| == |old(assigns)|
      ensures |trail| == old(trailLim)[bt] + 1
      ensures trailLim != [] ==> LastLim(trailLim) < |trail|
      ensures AssumptionsOk(old(S()), assumptions) ==> AssumptionsOk(S(), assumptions)
    {
      hide Struct, SemOk, Facts, WatchInv, AssumptionsOk, DirtyOk, ListsOk, Entails, Asserting, UnitUnder;
      CancelBounds(S(), c, bt);
      AssertingUnit(S(), c, bt);
      CancelWatchInv(S(), bt);
      CancelMeans(formula, S(), bt);
      if AssumptionsOk(S(), assumptions) {
        AssumptionsCancel(S(), bt, assumptions);
      }
      CancelUntil(bt);
      AssertLearnt(c);
    }

    method AssertLearnt(c: seq<Lit>)
      requires Base() && UnitUnder(S(), c) && Entails(formula, c) && qhead == |trail|
      requires WatchInv(ca, watches, assigns, vardata, pos, qhead)
      requires trailLim != [] ==> LastLim(trailLim) < |trail|
      modifies this`assigns, this`qhead, this`trail, this`vardata,
               this`pos, this`ca, this`activity, this`claInc, this`watches, this`learnts
      ensures Base() && WatchInv(ca, watches, assigns, vardata, pos, qhead) && qhead == old(qhead)
      ensures trailLim == old(trailLim) && |assigns| == |old(assigns)|
      ensures trail == old(trail) + [c[0]]
      ensures AssumptionsOk(old(S()), assumptions) ==> AssumptionsOk(S(), assumptions)
    {
      if |c| == 1 {
        AssertUnit(c[0]);
      } else {
        AssertClause(c);
      }
    }

    method AssertUnit(p: Lit)
      requires Base() && trailLim == [] && IsUndef(assigns, p) && Entails(formula, [p])
      requires qhead <= |trail| && WatchInv(ca, watches, assigns, vardata, pos, qhead)
      modifies this`assigns, this`vardata, this`trail, this`pos
      ensures Base() && WatchInv(ca, watches, assigns, vardata, pos, qhead)
      ensures |assigns| == |old(assigns)| && trail == old(trail) + [p]
      ensures AssumptionsOk(old(S()), assumptions) ==> AssumptionsOk(S(), assumptions)
    {
      hide Struct, SemOk, Facts, WatchInv, AssumptionsOk, DirtyOk, ListsOk, Entails, HeapOk;
      ghost var s := S();
      UnitFactKeeps(formula, s, p, qhead);
      if AssumptionsOk(s, assumptions) {
        AssumptionsEnqueue(s, p, CREF_UNDEF, assumptions);
      }
      HeapAssign(assigns, decision, polarity, orderHeap, p.v, if p.neg then False else True);
      UncheckedEnqueue(p, CREF_UNDEF);
    }

    method AssertClause(c: seq<Lit>)
      requires Base() && UnitUnder(S(), c) && |c| >= 2 && Entails(formula, c) && qhead == |trail|
      requires WatchInv(ca, watches, assigns, vardata, pos, qhead)
      requires trailLim != [] ==> LastLim(trailLim) < |trail|
      modifies this`assigns, this`trail, this`vardata,
               this`pos, this`ca, this`activity, this`claInc, this`watches, this`learnts
      ensures Base() && WatchInv(ca, watches, assigns, vardata, pos, qhead)
      ensures |assigns| == |old(assigns)| && trail == old(trail) + [c[0]]
      ensures AssumptionsOk(old(S()), assumptions) ==> AssumptionsOk(S(), assumptions)
    {
      ghost var s := S();
      hide Struct, SemOk, Facts, WatchInv, AssumptionsOk, DirtyOk, ListsOk, Entails, UnitUnder, HeapOk, Attached;
      LearntKeeps(formula, s, c, qhead, dirty, dirties, clauses, learnts);
      if AssumptionsOk(s, assumptions) {
        LearntStateAssumptions(s, c, assumptions);
      }
      AttachedFields(s, c, true);
      HeapAssign(assigns, decision, polarity, orderHeap, c[0].v, if c[0].neg then False else True);
      InstallLearnt(c);
    }

    /** Allocate, attach and bump the learnt clause, and enqueue its first literal with it as the reason. */
    method InstallLearnt(c: seq<Lit>)
      requires |c| >= 2 && Neg(c[0]) in watches && Neg(c[1]) in watches && c[0] != c[1]
      requires c[0].v < |assigns| && c[0].v < |vardata| && c[0].v < |pos| && |activity| == |ca|
      modifies this`assigns, this`trail, this`vardata,
               this`pos, this`ca, this`activity, this`claInc, this`watches, this`learnts
      ensures S() == LearntState(old(S()), c) && |activity| == |ca|
      ensures learnts == old(learnts) + [|old(ca)|]
    {
      var cr := AllocAttach(c, true);
      learnts := learnts + [cr];
      ClaBumpActivity(cr);
      UncheckedEnqueue(c[0], cr);
    }

    /** Propagation as search sees it: only the trail grows, and clauses are only permuted. */
    method PropagateAll() returns (confl: CRef)
      requires Base() && WatchInv(ca, watches, assigns, vardata, pos, qhead) && AssumptionsOk(S(), assumptions)
      requires trailLim != [] ==> LastLim(trailLim) < |trail|
      modifies this`ca, this`watches, this`dirty, this`dirties, this`assigns, this`vardata, this`trail,
               this`pos, this`qhead
      ensures Base() && AssumptionsOk(S(), assumptions) && qhead == |trail| && NoDeleted(ca, watches)
      ensures old(trail) <= trail && |assigns| == |old(assigns)|
      ensures confl == CREF_UNDEF ==> WatchInv(ca, watches, assigns, vardata, pos, |trail|)
      ensures confl != CREF_UNDEF ==>
                && WatchInv(ca, watches, assigns, vardata, pos, LastLim(trailLim))
                && exists q :: LastLim(trailLim) <= q < |trail| && Conflicting(ca, assigns, confl, trail[q])
    {
      hide Struct, SemOk, Facts, SameDb, NoDeleted, WatchInv, Conflicting, DirtyOk, ListsOk, HeapOk, AssumptionsOk,
        UnitFree;
      ghost var s := S();
      confl := Propagate();
      ListsSame(s.ca, ca, clauses, learnts);
      AssumptionsExtend(s, S(), assumptions);
      HeapExtend(s, S(), decision, polarity, orderHeap);
    }

    method NewDecisionLevel()
      modifies this`trailLim
      ensures S() == NewLevel(old(S()))
    {
      trailLim := trailLim + [|trail|];
    }

    /** The next branching literal, or none when every decision variable is assigned. */
    method PickBranchLit() returns (next: Option<Lit>)
      requires HeapOk(assigns, decision, polarity, orderHeap)
      modifies this`orderHeap
      ensures next.Some? ==>
                && IsUndef(assigns, next.value) && decision[next.value.v]
                && HeapOkExcept(assigns, decision, polarity, orderHeap, next.value.v)
      ensures next.None? ==>
                && HeapOk(assigns, decision, polarity, orderHeap)
                && forall v :: 0 <= v < |assigns| && decision[v] ==> assigns[v] != Undef
    {
      var found: Option<Var> := None;
      var rnd: bool := *;
      if rnd && orderHeap != {} {
        // A random element of the heap; it stays in the heap.
        var r :| r in orderHeap;
        found := Some(r);
      }
      while found.None? || assigns[found.value] != Undef || !decision[found.value]
        invariant found.None? ==> HeapOk(assigns, decision, polarity, orderHeap)
        invariant found.Some? ==>
                    found.value < |assigns| && HeapOkExcept(assigns, decision, polarity, orderHeap, found.value)
        decreases |orderHeap|
      {
        if orderHeap == {} {
          return None;
        }
        var v :| v in orderHeap;
        orderHeap := orderHeap - {v};
        found := Some(v);
      }
      var neg: bool := *;
      return Some(Lit(found.value, if rnd then neg else polarity[found.value]));
    }

    /** Open a level and decide p on it. */
    method Decide(p: Lit)
      requires Core() && ListsOk(ca, clauses, learnts) && |activity| == |ca| && NothingSeen()
      requires HeapOkExcept(assigns, decision, polarity, orderHeap, p.v) && IsUndef(assigns, p)
      requires AssumptionsOk(S(), assumptions) && qhead == |trail|
      requires |trailLim| < |assumptions| ==> p == assumptions[|trailLim|]
      requires WatchInv(ca, watches, assigns, vardata, pos, |trail|)
      modifies this`trailLim, this`assigns, this`vardata, this`trail, this`pos
      ensures Base() && AssumptionsOk(S(), assumptions) && WatchInv(ca, watches, assigns, vardata, pos, qhead)
      ensures trailLim == old(trailLim) + [|old(trail)|] && |trail| == |old(trail)| + 1
      ensures |assigns| == |old(assigns)|
    {
      hide Struct, SemOk, Facts, WatchInv, DirtyOk, ListsOk, HeapOk, HeapOkExcept, AssumptionsOk;
      ghost var s := S();
      DecideKeeps(formula, s, p, assumptions);
      HeapDecide(assigns, decision, polarity, orderHeap, p.v, if p.neg then False else True);
      OpenLevel(p);
    }

    method OpenLevel(p: Lit)
      requires p.v < |assigns| && p.v < |vardata| && p.v < |pos|
      modifies this`trailLim, this`assigns, this`vardata, this`trail, this`pos
      ensures S() == Enqueued(NewLevel(old(S())), p, CREF_UNDEF)
    {
      NewDecisionLevel();
      UncheckedEnqueue(p, CREF_UNDEF);
    }

    // -------------------------------------------------------------- deleting clauses

    method Smudge(p: Lit)
      modifies this`dirty, this`dirties
      ensures dirty == old(dirty) + {p}
      ensures dirties == if p in old(dirty) then old(dirties) else old(dirties) + [p]
    {
      if p !in dirty {
        dirty := dirty + {p};
        dirties := dirties + [p];
      }
    }

    /** Detach lazily, clear the reason it may be, and mark the clause deleted. */
    method RemoveClause(cr: CRef)
      requires Live(ca, cr) && |ca[cr].lits| >= 2
      modifies this`ca, this`vardata, this`dirty, this`dirties
      ensures S() == Removed(old(S()), cr)
      ensures var c := old(ca)[cr].lits;
              dirty == old(dirty) + {Neg(c[0]), Neg(c[1])}
      ensures forall x :: x in dirty - old(dirty) ==> x in dirties
      ensures forall x :: x in old(dirties) ==> x in dirties
      ensures forall x :: x in dirties ==> x in old(dirties) || x in dirty
    {
      var c := ca[cr].lits;
      Smudge(Neg(c[0]));
      Smudge(Neg(c[1]));
      if Locked(ca, assigns, vardata, cr) {
        vardata := vardata[c[0].v := vardata[c[0].v].(reason := CREF_UNDEF)];
      }
      ca := ca[cr := ca[cr].(mark := 1)];
    }

    /** All that deletion must leave intact, apart from the clause lists. */
    ghost predicate Sound()
      reads this
    {
      && Core() && WatchInv(ca, watches, assigns, vardata, pos, qhead) && AssumptionsOk(S(), assumptions)
      && |activity| == |ca| && HeapOk(assigns, decision, polarity, orderHeap) && NothingSeen()
    }

    /** Delete a clause that is learnt or satisfied at level 0. */
    method Discard(cr: CRef)
      requires Sound() && Live(ca, cr)
      requires trailLim == [] || !Locked(ca, assigns, vardata, cr)
      requires ca[cr].learnt || exists x :: x in ca[cr].lits && x in Facts(S())
      modifies this`ca, this`vardata, this`dirty, this`dirties
      ensures Sound() && ca == Deleted(old(ca), cr)
      ensures !Locked(old(ca), assigns, old(vardata), cr) ==> vardata == old(vardata)
    {
      hide Struct, SemOk, WatchInv, Facts, AssumptionsOk, DirtyOk, HeapOk, Locked;
      RemoveKeeps(formula, S(), cr, qhead, assumptions);
      RemoveStruct(S(), cr);
      ghost var s, d, ds := S(), dirty, dirties;
      RemoveClause(cr);
      RemoveDirty(s, cr, d, ds, dirty, dirties);
    }

    method Satisfied(cr: CRef) returns (sat: bool)
      requires 0 <= cr < |ca|
      ensures sat <==> HasTrueLit(ca, assigns, cr)
    {
      var i := 0;
      while i < |ca[cr].lits|
        invariant 0 <= i <= |ca[cr].lits|
        invariant forall k :: 0 <= k < i ==> !IsTrue(assigns, ca[cr].lits[k])
      {
        if IsTrue(assigns, ca[cr].lits[i]) {
          return true;
        }
        i := i + 1;
      }
      return false;
    }

    /** At level 0, delete the satisfied clauses of the list cs and return the others. */
    method RemoveSatisfied(cs: seq<CRef>) returns (kept: seq<CRef>)
      requires Sound() && trailLim == [] && DistinctRefs(cs) && forall cr :: cr in cs ==> Live(ca, cr)
      modifies this`ca, this`vardata, this`dirty, this`dirties
      ensures Sound() && Filtering(old(ca), ca, cs, |cs|, kept)
      ensures forall cr :: cr in kept <==> cr in cs && !HasTrueLit(old(ca), assigns, cr)
    {
      kept := [];
      var i := 0;
      FilterStart(ca, cs);
      hide Struct, SemOk, WatchInv, Facts, AssumptionsOk, DirtyOk, HeapOk, Filtering, Locked;
      while i < |cs|
        invariant 0 <= i <= |cs| && Sound()
        invariant Filtering(old(ca), ca, cs, i, kept)
        invariant forall cr :: cr in kept <==> cr in cs[..i] && !HasTrueLit(old(ca), assigns, cr)
      {
        assert cs[i] in cs && cs[..i + 1] == cs[..i] + [cs[i]];
        FilterKeep(old(ca), ca, cs, i, kept);
        FilterDrop(old(ca), ca, cs, i, kept);
        var sat := Satisfied(cs[i]);
        if sat {
          ghost var x :| x in ca[cs[i]].lits && IsTrue(assigns, x);
          TrueFact(S(), x);
          Discard(cs[i]);
        } else {
          kept := kept + [cs[i]];
        }
        i := i + 1;
      }
      assert cs[..|cs|] == cs;
    }

    method SortLearnts()
      modifies this`learnts
      ensures multiset(learnts) == multiset(old(learnts))
      ensures Sorted(learnts, ReduceOrder(ca, activity))
    {
      var a := new CRef[|learnts|](i requires 0 <= i < |learnts| reads this => learnts[i]);
      assert a[..] == learnts && a[0..a.Length] == a[..];
      ReduceOrderWeak(ca, activity);
      Sort(a, 0, a.Length, ReduceOrder(ca, activity));
      assert a[0..a.Length] == a[..];
      learnts := a[..];
    }

    /**
     * Sort the learnt clauses and delete, of those that are neither binary nor locked, the ones in the first half
     * and the ones of low activity.
     */
    method ReduceDB() returns (ghost sorted: seq<CRef>, ghost lim: real)
      requires Base() && Sound()
      modifies this`ca, this`vardata, this`dirty, this`dirties, this`learnts
      ensures Base() && Sound() && vardata == old(vardata)
      ensures multiset(sorted) == multiset(old(learnts)) && LeastActiveFirst(old(ca), activity, sorted)
      ensures old(learnts) != [] ==> lim == claInc / (|old(learnts)| as real)
      ensures KeptExactly(old(S()), activity, lim, sorted, learnts)
      ensures forall cr :: cr in old(learnts) && cr !in learnts ==> !Live(ca, cr)
      ensures forall cr :: cr in learnts ==> 0 <= cr < |ca| && cr < |old(ca)| && ca[cr] == old(ca)[cr]
      ensures forall x, y ::
                x in old(learnts) && x !in learnts && y in learnts && |ca[y].lits| > 2 && !IsReason(old(S()), y) ==>
                  NoMoreActive(activity, x, y)
      ensures forall cr :: Live(old(ca), cr) && cr !in old(learnts) ==> ca[cr] == old(ca)[cr]
    {
      hide Struct, SemOk, WatchInv, Facts, AssumptionsOk, DirtyOk, HeapOk, Filtering, Locked, ReduceOrder, Reduced,
        Sorted, ListsOk, LeastActiveFirst, KeptExactly, IsReason, NoMoreActive;
      ghost var s, l0 := S(), learnts;
      var extraLim := if learnts == [] then 0.0 else claInc / (|learnts| as real);
      lim := extraLim;
      SortLearnts();
      SortedLists(ca, clauses, l0, learnts);
      sorted := learnts;
      ReduceSorted(extraLim);
      FilterOthers(old(ca), ca, sorted, learnts, l0);
      ReduceLaws(s, ca, activity, lim, clauses, l0, sorted, learnts);
    }

    method ReduceSorted(extraLim: real)
      requires Base() && Sound()
      modifies this`ca, this`vardata, this`dirty, this`dirties, this`learnts
      ensures Base() && Sound() && vardata == old(vardata)
      ensures Reduced(old(ca), assigns, vardata, activity, extraLim, old(learnts), |old(learnts)|, learnts)
      ensures Filtering(old(ca), ca, old(learnts), |old(learnts)|, learnts)
    {
      var cs, kept, i := learnts, [], 0;
      FilterStart(ca, cs);
      hide Struct, SemOk, WatchInv, Facts, AssumptionsOk, DirtyOk, HeapOk, Filtering, Locked, Reduced;
      ReducedStart(ca, assigns, vardata, activity, extraLim, cs);
      while i < |cs|
        invariant 0 <= i <= |cs| && Sound() && clauses == old(clauses) && cs == old(learnts)
        invariant Filtering(old(ca), ca, cs, i, kept) && vardata == old(vardata)
        invariant Reduced(old(ca), assigns, vardata, activity, extraLim, cs, i, kept)
      {
        assert cs[i] in cs;
        FilterKeep(old(ca), ca, cs, i, kept);
        FilterDrop(old(ca), ca, cs, i, kept);
        ReducedStep(old(ca), ca, assigns, vardata, activity, extraLim, cs, i, kept);
        var cr := cs[i];
        if |ca[cr].lits| > 2 && !Locked(ca, assigns, vardata, cr) && (i < |cs| / 2 || activity[cr] < extraLim) {
          Discard(cr);
        } else {
          kept := kept + [cr];
        }
        i := i + 1;
      }
      learnts := kept;
      ListsFilterLearnts(old(ca), ca, clauses, cs, kept);
    }

    // -------------------------------------------------------------- garbage collection

    /** Relocate the clauses of all watchers. */
    method RelocWatches(g: Collector, ghost origin: seq<CRef>) returns (h: Collector, ghost o: seq<CRef>)
      requires Struct(S()) && Collecting(ca, activity, g, origin)
      modifies this`watches
      ensures Collecting(ca, activity, h, o) && Extends(g.fwd, h.fwd)
      ensures WatchesRenamed(h.fwd, old(watches), watches)
    {
      h, o := g, origin;
      ghost var s := S();
      StructKeys(s);
      hide Struct, Collecting, WatchesPartly, Extends, WatchesRenamed, RenameWatchers, WatchersMoved, WatchKeys;
      WatchesStart(h.fwd, watches);
      ExtendsRefl(h.fwd);
      var v := 0;
      while v < |assigns|
        invariant 0 <= v <= |assigns|
        invariant Collecting(ca, activity, h, o) && Extends(g.fwd, h.fwd)
        invariant WatchesPartly(h.fwd, s.watches, watches, v, 0)
      {
        h, o := RelocVar(v, 0, s, h, o, g.fwd);
        h, o := RelocVar(v, 1, s, h, o, g.fwd);
        WatchesNextVar(h.fwd, s.watches, watches, v);
        v := v + 1;
      }
      WatchesAll(h.fwd, s.watches, watches, |assigns|);
    }

    method RelocVar(v: nat, k: nat, ghost s: State, g: Collector, ghost origin: seq<CRef>, ghost fwd0: seq<CRef>)
      returns (h: Collector, ghost o: seq<CRef>)
      requires k < 2 && Struct(s) && s == S().(watches := s.watches) && v < |assigns|
      requires Collecting(ca, activity, g, origin) && Extends(fwd0, g.fwd)
      requires WatchesPartly(g.fwd, s.watches, watches, v, k)
      modifies this`watches
      ensures Collecting(ca, activity, h, o) && Extends(fwd0, h.fwd)
      ensures WatchesPartly(h.fwd, s.watches, watches, v, k + 1)
    {
      var p := Lit(v, k == 1);
      StructKeyAt(s, p);
      WatcherRange(s, p);
      WatchesUntouched(g.fwd, s.watches, watches, v, k);
      hide Struct, Collecting, WatchesPartly, RenameWatchers, WatchersMoved, WatchKeys;
      var ws;
      ws, h, o := RelocWatchers(ca, activity, watches[p], g, origin);
      WatchesStep(g.fwd, h.fwd, s.watches, watches, v, k, ws);
      watches := watches[p := ws];
    }

    /** Relocate the reasons of the literals on the trail. */
    method RelocReasons(ghost s: State, g: Collector, ghost origin: seq<CRef>)
      returns (h: Collector, ghost o: seq<CRef>)
      requires Struct(s) && s == S().(watches := s.watches)
      requires Collecting(ca, activity, g, origin)
      modifies this`vardata
      ensures Collecting(ca, activity, h, o) && Extends(g.fwd, h.fwd)
      ensures ReasonsRenamed(h.fwd, trail, old(vardata), vardata)
    {
      h, o := g, origin;
      ExtendsRefl(h.fwd);
      assert ReasonsPartly(h.fwd, trail, vardata, vardata, 0);
      hide Struct, Collecting, ReasonsPartly, Extends, ReasonsRenamed;
      var i := 0;
      while i < |trail|
        invariant 0 <= i <= |trail|
        invariant Collecting(ca, activity, h, o) && Extends(g.fwd, h.fwd)
        invariant ReasonsPartly(h.fwd, trail, s.vd, vardata, i)
      {
        TrailReasonLocked(s, i);
        ReasonsUntouched(h.fwd, trail, s.vd, vardata, i);
        CollectFacts(ca, activity, h, o);
        var v := trail[i].v;
        var r := vardata[v].reason;
        ghost var f := h.fwd;
        if r != CREF_UNDEF && (h.fwd[r] != CREF_UNDEF || Locked(ca, assigns, vardata, r)) {
          r, h, o := Reloc(ca, activity, r, h, o);
        } else {
          ExtendsRefl(f);
        }
        ExtendsTrans(g.fwd, f, h.fwd);
        ReasonsStep(s, f, h.fwd, vardata, i, r);
        vardata := vardata[v := vardata[v].(reason := r)];
        i := i + 1;
      }
      ReasonsAll(h.fwd, trail, s.vd, vardata);
    }

    /** Copy every clause that is still referenced to a fresh region and rename all references. */
    method GarbageCollect() returns (ghost fwd: seq<CRef>, ghost origin: seq<CRef>)
      requires Base() && Sound()
      modifies this`ca, this`activity, this`watches, this`dirty, this`dirties, this`vardata, this`learnts, this`clauses
      ensures Base() && Sound() && NoDeleted(ca, watches)
      ensures Moved(old(ca), fwd, ca, origin)
      ensures AllMoved(fwd, old(clauses)) && clauses == RenameAll(fwd, old(clauses))
      ensures AllMoved(fwd, old(learnts)) && learnts == RenameAll(fwd, old(learnts))
      ensures ReasonsRenamed(fwd, trail, old(vardata), vardata)
      ensures exists w0 :: Cleaned(old(ca), old(watches), w0) && WatchesRenamed(fwd, w0, watches)
      ensures |activity| == |ca| == |origin| && |old(activity)| == |old(ca)|
      ensures forall k :: 0 <= k < |ca| ==> 0 <= origin[k] < |old(ca)| && activity[k] == old(activity)[origin[k]]
    {
      hide Struct, SemOk, Facts, WatchInv, DirtyOk, ListsOk, HeapOk, AssumptionsOk, NoDeleted, Relocated,
        Cleaned, Moved, AllMoved, RenameAll, ReasonsRenamed, WatchesRenamed;
      ghost var s := S();
      CleanAll();
      CleanedStruct(s, watches);
      MeansFields(formula, s, S());
      CleanedWatchInv(s, watches, qhead);
      AssumptionsFields(s, S(), assumptions);
      ghost var t := S();
      fwd, origin := MoveAll();
      RelocatedParts(t, S(), fwd, origin);
    }

    method MoveAll() returns (ghost fwd: seq<CRef>, ghost origin: seq<CRef>)
      requires Struct(S()) && Means(formula, S()) && NoDeleted(ca, watches) && dirty == {} && dirties == []
      requires LastLim(trailLim) <= qhead <= |trail| && WatchInv(ca, watches, assigns, vardata, pos, qhead)
      requires AssumptionsOk(S(), assumptions) && ListsOk(ca, clauses, learnts) && |activity| == |ca|
      requires HeapOk(assigns, decision, polarity, orderHeap) && NothingSeen()
      modifies this`ca, this`activity, this`watches, this`vardata, this`learnts, this`clauses
      ensures Base() && Sound() && NoDeleted(ca, watches)
      ensures Relocated(old(S()), S(), fwd, origin)
      ensures AllMoved(fwd, old(clauses)) && clauses == RenameAll(fwd, old(clauses))
      ensures AllMoved(fwd, old(learnts)) && learnts == RenameAll(fwd, old(learnts))
      ensures |activity| == |ca| == |origin| && |old(activity)| == |old(ca)|
      ensures forall k :: 0 <= k < |ca| ==> 0 <= origin[k] < |old(ca)| && activity[k] == old(activity)[origin[k]]
    {
      hide Struct, SemOk, Facts, WatchInv, DirtyOk, ListsOk, HeapOk, AssumptionsOk, NoDeleted, Relocated,
        AllMoved, RenameAll, LastLim;
      ghost var s := S();
      ghost var cs, ls := clauses, learnts;
      fwd, origin := Evacuate();
      RelocatedStruct(s, S(), fwd, origin);
      RelocatedWatchInv(s, S(), fwd, origin, qhead);
      RelocatedMeans(formula, s, S(), fwd, origin);
      RelocatedLists(s, S(), fwd, origin, cs, ls);
      RelocatedAssumptions(s, S(), fwd, origin, assumptions);
      CleanDirty(ca, watches);
    }

    /** Move the clauses of watchers, reasons, learnts and clauses, in that order. */
    method Evacuate() returns (ghost fwd: seq<CRef>, ghost origin: seq<CRef>)
      requires Struct(S()) && ListsOk(ca, clauses, learnts) && |activity| == |ca|
      modifies this`ca, this`activity, this`watches, this`vardata, this`learnts, this`clauses
      ensures Relocated(old(S()), S(), fwd, origin)
      ensures AllMoved(fwd, old(clauses)) && clauses == RenameAll(fwd, old(clauses))
      ensures AllMoved(fwd, old(learnts)) && learnts == RenameAll(fwd, old(learnts))
      ensures |activity| == |ca| == |origin| && |old(activity)| == |old(ca)|
      ensures forall k :: 0 <= k < |ca| ==> 0 <= origin[k] < |old(ca)| && activity[k] == old(activity)[origin[k]]
    {
      ListsRange(ca, clauses, learnts);
      hide Struct, ListsOk, Collecting, WatchesRenamed, ReasonsRenamed, AllMoved, RenameAll, Extends;
      ghost var s := S();
      ghost var cs, ls := clauses, learnts;
      CollectStart(ca, activity);
      var g := Collector(seq(|ca|, _ => CREF_UNDEF), [], []);
      ghost var f1, f2, f3;
      g, origin := RelocWatches(g, []);
      f1 := g.fwd;
      g, origin := RelocReasons(s, g, origin);
      f2 := g.fwd;
      learnts, g, origin := RelocList(ca, activity, learnts, g, origin);
      f3 := g.fwd;
      clauses, g, origin := RelocList(ca, activity, clauses, g, origin);
      fwd := g.fwd;
      ExtendsTrans(f2, f3, fwd);
      ExtendsTrans(f1, f2, fwd);
      WatchesStable(f1, fwd, s.watches, watches);
      ReasonsStable(f2, fwd, trail, s.vd, vardata);
      RenameListStable(f3, fwd, ls);
      CollectEnd(ca, activity, g, origin);
      ca := g.to;
      activity := g.act;
    }

    // -------------------------------------------------------------- search

    method RebuildOrderHeap()
      requires |decision| == |polarity| == |assigns|
      modifies this`orderHeap
      ensures HeapOk(assigns, decision, polarity, orderHeap)
      ensures forall v: Var :: v in orderHeap <==> v < |assigns| && decision[v] && assigns[v] == Undef
    {
      var vs: seq<Var> := [];
      var v := 0;
      while v < |assigns|
        invariant 0 <= v <= |assigns|
        invariant forall u: Var :: u in vs <==> u < v && decision[u] && assigns[u] == Undef
      {
        if decision[v] && assigns[v] == Undef {
          vs := vs + [v];
        }
        v := v + 1;
      }
      orderHeap := set u | u in vs;
    }

    /** Collect garbage when enough of the region is wasted; the threshold is left open. */
    method CheckGarbage()
      requires Base() && Sound()
      modifies this`ca, this`activity, this`watches, this`dirty, this`dirties, this`vardata, this`learnts, this`clauses
      ensures Base() && Sound()
      ensures NoneSatisfied(old(ca), old(learnts), assigns) ==> NoneSatisfied(ca, learnts, assigns)
      ensures NoneSatisfied(old(ca), old(clauses), assigns) ==> NoneSatisfied(ca, clauses, assigns)
    {
      hide Base, Sound, Moved, AllMoved, RenameAll, NoneSatisfied;
      var wasteful: bool := *;
      if wasteful {
        ghost var fwd, origin := GarbageCollect();
        if NoneSatisfied(old(ca), old(learnts), assigns) {
          MovedUnsatisfied(old(ca), fwd, ca, origin, old(learnts), assigns);
        }
        if NoneSatisfied(old(ca), old(clauses), assigns) {
          MovedUnsatisfied(old(ca), fwd, ca, origin, old(clauses), assigns);
        }
      }
    }

    /** At level 0: propagate, then delete satisfied clauses. False means the formula is unsatisfiable. */
    method Simplify(throttled: bool, removeSat: bool) returns (sat: bool)
      requires Base() && Sound() && trailLim == [] && ok
      modifies this`ca, this`watches, this`dirty, this`dirties, this`assigns, this`vardata, this`trail,
               this`pos, this`qhead, this`ok, this`learnts, this`clauses, this`activity, this`orderHeap
      ensures !sat ==> Unsat(formula) && !ok
      ensures Base() && (sat ==> Sound() && qhead == |trail| && ok)
      ensures old(trail) <= trail && |assigns| == |old(assigns)|
      ensures sat && !throttled ==>
                NoneSatisfied(ca, learnts, assigns) && (removeSat ==> NoneSatisfied(ca, clauses, assigns))
    {
      hide Struct, SemOk, Facts, WatchInv, DirtyOk, ListsOk, HeapOk, AssumptionsOk, NoDeleted, Conflicting, Filtering,
        NoneSatisfied;
      var confl := PropagateAll();
      if confl != CREF_UNDEF {
        ghost var q :| LastLim(trailLim) <= q < |trail| && Conflicting(ca, assigns, confl, trail[q]);
        ConflictAtRoot(formula, S(), confl, trail[q]);
        ok := false;
        return false;
      }
      if !throttled {
        SimplifyDb(removeSat);
      }
      return true;
    }

    method SimplifyDb(removeSat: bool)
      requires Base() && Sound() && trailLim == []
      modifies this`ca, this`watches, this`dirty, this`dirties, this`vardata,
               this`learnts, this`clauses, this`activity, this`orderHeap
      ensures Base() && Sound()
      ensures NoneSatisfied(ca, learnts, assigns) && (removeSat ==> NoneSatisfied(ca, clauses, assigns))
    {
      hide Struct, SemOk, Facts, WatchInv, DirtyOk, ListsOk, HeapOk, AssumptionsOk, Filtering,
        NoneSatisfied;
      RemoveSatisfiedClauses(removeSat);
      CheckGarbage();
      HeapSizes(assigns, decision, polarity, orderHeap);
      RebuildOrderHeap();
    }

    /** Delete the satisfied learnt clauses and, if that is not turned off, the satisfied problem clauses. */
    method RemoveSatisfiedClauses(removeSatisfied: bool)
      requires Base() && Sound() && trailLim == []
      modifies this`ca, this`vardata, this`dirty, this`dirties, this`learnts, this`clauses
      ensures Base() && Sound()
      ensures forall cr :: cr in learnts <==> cr in old(learnts) && !HasTrueLit(old(ca), assigns, cr)
      ensures if removeSatisfied
              then forall cr :: cr in clauses <==> cr in old(clauses) && !HasTrueLit(old(ca), assigns, cr)
              else clauses == old(clauses)
      ensures NoneSatisfied(ca, learnts, assigns) && (removeSatisfied ==> NoneSatisfied(ca, clauses, assigns))
    {
      hide Struct, SemOk, Facts, WatchInv, DirtyOk, HeapOk, AssumptionsOk, Filtering, ListsOk, HasTrueLit,
        NoneSatisfied;
      ghost var ca0, ls := ca, learnts;
      ListsLive(ca, clauses, learnts);
      learnts := RemoveSatisfied(learnts);
      ListsFilterLearnts(ca0, ca, clauses, ls, learnts);
      FilteredUnsatisfied(ca0, ca, ls, learnts, [], assigns);
      if removeSatisfied {
        ghost var ca1, cs := ca, clauses;
        ListsLive(ca, clauses, learnts);
        ProblemClausesKept(ca0, ca1, cs, ls, learnts, assigns);
        clauses := RemoveSatisfied(clauses);
        ListsFilterClauses(ca1, ca, cs, learnts, clauses);
        ListsApart(ca1, cs, learnts);
        FilteredUnsatisfied(ca1, ca, cs, clauses, learnts, assigns);
      }
    }

    /** The invariant of the search loop. */
    ghost predicate Searching()
      reads this
    {
      && Base() && Sound() && ok
      && (trailLim != [] ==> LastLim(trailLim) < |trail|)
      && LevelsOk(trailLim, |trail|, |assumptions|)
    }

    ghost function Left(): int
      reads this
    {
      Remaining(trailLim, |trail|, |assigns|, |assumptions|)
    }

    /** Learn from a conflict above level 0. */
    method HandleConflict(confl: CRef, ghost q: nat)
      requires Base() && AssumptionsOk(S(), assumptions) && trailLim != [] && ok
      requires LevelsOk(trailLim, |trail|, |assumptions|)
      requires WatchInv(ca, watches, assigns, vardata, pos, LastLim(trailLim))
      requires LastLim(trailLim) <= q < |trail| && Conflicting(ca, assigns, confl, trail[q])
      modifies this`assigns, this`polarity, this`orderHeap, this`qhead, this`trail, this`trailLim, this`vardata,
               this`pos, this`ca, this`activity, this`claInc, this`watches, this`learnts, this`seen, this`analyzeToclear
      ensures Searching() && Left() < old(Left()) && |assigns| == |old(assigns)|
    {
      hide Struct, SemOk, Facts, WatchInv, DirtyOk, ListsOk, HeapOk, AssumptionsOk, Conflicting, LevelsOk, Remaining,
        Entails, Asserting;
      ghost var s := S();
      var learnt, bt := Analyze(confl, q);
      Backjump(learnt, bt);
      RemainingBackjump(s, trailLim, |trail|, bt, |assumptions|);
    }

    /** Open levels for assumptions that hold; stop at one that does not. */
    method TakeAssumptions() returns (next: Option<Lit>, failed: bool)
      requires Base() && Sound() && qhead == |trail| && ok && LevelsOk(trailLim, |trail|, |assumptions|)
      requires forall p :: p in assumptions ==> p.v < |assigns|
      modifies this`trailLim, this`seen, this`conflict
      ensures Base() && Sound() && LevelsOk(trailLim, |trail|, |assumptions|) && Left() <= old(Left())
      ensures failed ==>
                && Entails(formula, conflict)
                && conflict != [] && forall x :: x in conflict ==> Neg(x) in assumptions
      ensures !failed && next.Some? ==>
                |trailLim| < |assumptions| && next.value == assumptions[|trailLim|] && IsUndef(assigns, next.value)
      ensures !failed && next.None? ==> |trailLim| >= |assumptions|
      ensures !failed ==> conflict == old(conflict)
    {
      hide Struct, SemOk, Facts, WatchInv, DirtyOk, ListsOk, HeapOk, AssumptionsOk, LevelsOk, Remaining, Entails;
      while |trailLim| < |assumptions|
        invariant Base() && Sound() && LevelsOk(trailLim, |trail|, |assumptions|) && Left() <= old(Left())
        invariant conflict == old(conflict)
        decreases |assumptions| - |trailLim|
      {
        var p := assumptions[|trailLim|];
        assert p in assumptions;
        if IsTrue(assigns, p) {
          OpenDummy(p);
        } else if IsFalse(assigns, p) {
          FailAssumption(p);
          return None, true;
        } else {
          return Some(p), false;
        }
      }
      return None, false;
    }

    method OpenDummy(p: Lit)
      requires Base() && Sound() && qhead == |trail| && LevelsOk(trailLim, |trail|, |assumptions|)
      requires |trailLim| < |assumptions| && assumptions[|trailLim|] == p && IsTrue(assigns, p)
      modifies this`trailLim
      ensures Base() && Sound() && LevelsOk(trailLim, |trail|, |assumptions|) && Left() <= old(Left())
      ensures |trailLim| == |old(trailLim)| + 1
    {
      hide Struct, SemOk, Facts, WatchInv, DirtyOk, ListsOk, HeapOk, AssumptionsOk, LevelsOk, Remaining;
      NewLevelStruct(S());
      NewLevelMeans(formula, S());
      AssumptionsDummy(S(), assumptions);
      RemainingDummy(S(), |assumptions|);
      NewDecisionLevel();
    }

    /** The assumption p is false: explain why in terms of the others. */
    method FailAssumption(p: Lit)
      requires Base() && Sound() && |trailLim| < |assumptions| && p in assumptions && IsFalse(assigns, p)
      modifies this`seen, this`conflict
      ensures Base() && Sound() && Entails(formula, conflict)
      ensures conflict != [] && forall x :: x in conflict ==> Neg(x) in assumptions
    {
      hide Struct, SemOk, Facts, WatchInv, DirtyOk, ListsOk, HeapOk, AssumptionsOk, FinalLits, Entails;
      assert Neg(Neg(p)) == p;
      AnalyzeFinal(Neg(p));
      ConflictAssumptions(S(), Neg(p), conflict, assumptions);
    }

    /** What a verdict of search promises. */
    ghost predicate Verdict(status: LBool)
      reads this
    {
      && (status == False ==> Entails(formula, conflict) && forall x :: x in conflict ==> Neg(x) in assumptions)
      && (status == True ==>
            |decision| == |assigns| && forall v :: 0 <= v < |assigns| && decision[v] ==> assigns[v] != Undef)
      && (status == True && (forall v :: 0 <= v < |assigns| ==> assigns[v] != Undef) ==>
            && SatAll(TrailModel(assigns), formula)
            && forall p :: p in assumptions ==> Holds(TrailModel(assigns), p))
    }

    /** Nothing is in conflict: simplify, reduce, and take or pick the next decision. */
    method Extend() returns (status: LBool)
      requires Searching() && conflict == [] && qhead == |trail|
      requires forall p :: p in assumptions ==> p.v < |assigns|
      modifies this`ca, this`watches, this`dirty, this`dirties, this`assigns, this`vardata, this`trail,
               this`pos, this`qhead, this`ok, this`learnts, this`clauses, this`activity, this`orderHeap,
               this`trailLim, this`seen, this`conflict
      ensures status == Undef ==> Searching() && Left() < old(Left()) && conflict == []
      ensures Verdict(status) && Base() && (ok ==> Sound()) && |assigns| == |old(assigns)|
      ensures ok || (status == False && conflict == [])
      ensures ok && status != Undef ==> qhead == |trail|
    {
      hide Struct, SemOk, Facts, WatchInv, DirtyOk, ListsOk, HeapOk, HeapOkExcept, AssumptionsOk, LevelsOk, Remaining,
        Entails, SatAll;
      if |trailLim| == 0 {
        var sat := SimplifyRoot();
        if !sat {
          return False;
        }
      }
      MaybeReduce();
      status := NextDecision();
    }

    method SimplifyRoot() returns (sat: bool)
      requires Searching() && conflict == [] && trailLim == []
      modifies this`ca, this`watches, this`dirty, this`dirties, this`assigns, this`vardata, this`trail,
               this`pos, this`qhead, this`ok, this`learnts, this`clauses, this`activity, this`orderHeap
      ensures !sat ==> Verdict(False) && !ok && Base()
      ensures sat ==> Base() && Sound() && ok && qhead == |trail| && LevelsOk(trailLim, |trail|, |assumptions|)
      ensures Left() <= old(Left()) && |assigns| == |old(assigns)|
    {
      hide Struct, SemOk, Facts, WatchInv, DirtyOk, ListsOk, HeapOk, AssumptionsOk, LevelsOk, Remaining, Entails,
        SatAll, Unsat;
      ghost var s := S();
      var throttled: bool, removeSat: bool := *, *;
      sat := Simplify(throttled, removeSat);
      RemainingGrow(s, S(), |assumptions|);
      if !sat {
        UnsatEntails(formula);
      }
    }

    /** Reduce the learnt clauses now and then; the trigger is left open. */
    method MaybeReduce()
      requires Base() && Sound()
      modifies this`ca, this`activity, this`watches, this`dirty, this`dirties, this`vardata, this`learnts, this`clauses
      ensures Base() && Sound()
    {
      hide Struct, SemOk, Facts, WatchInv, DirtyOk, ListsOk, HeapOk, AssumptionsOk;
      var reduce: bool := *;
      if reduce {
        ghost var sorted, lim := ReduceDB();
        CheckGarbage();
      }
    }

    method NextDecision() returns (status: LBool)
      requires Base() && Sound() && ok && qhead == |trail| && LevelsOk(trailLim, |trail|, |assumptions|)
      requires conflict == [] && forall p :: p in assumptions ==> p.v < |assigns|
      modifies this`assigns, this`vardata, this`trail, this`pos, this`orderHeap, this`trailLim, this`seen, this`conflict
      ensures status == Undef ==> Searching() && Left() < old(Left()) && conflict == []
      ensures Verdict(status) && Base() && Sound() && |assigns| == |old(assigns)|
      ensures status != Undef ==> qhead == |trail|
    {
      hide Struct, SemOk, Facts, WatchInv, DirtyOk, ListsOk, HeapOk, HeapOkExcept, AssumptionsOk, LevelsOk, Remaining,
        Entails, SatAll;
      var next, failed := TakeAssumptions();
      if failed {
        return False;
      }
      HeapWeaken(assigns, decision, polarity, orderHeap);
      if next.None? {
        next := PickBranchLit();
        if next.None? {
          ModelFound(formula, S(), assumptions);
          return True;
        }
      }
      DecideNext(next.value);
      return Undef;
    }

    method DecideNext(p: Lit)
      requires Core() && ListsOk(ca, clauses, learnts) && |activity| == |ca| && NothingSeen() && ok
      requires WatchInv(ca, watches, assigns, vardata, pos, qhead) && AssumptionsOk(S(), assumptions)
      requires HeapOkExcept(assigns, decision, polarity, orderHeap, p.v) && IsUndef(assigns, p)
      requires qhead == |trail| && LevelsOk(trailLim, |trail|, |assumptions|)
      requires |trailLim| < |assumptions| ==> p == assumptions[|trailLim|]
      modifies this`trailLim, this`assigns, this`vardata, this`trail, this`pos
      ensures Searching() && Left() < old(Left()) && |assigns| == |old(assigns)|
    {
      hide Struct, SemOk, Facts, WatchInv, DirtyOk, ListsOk, HeapOk, HeapOkExcept, AssumptionsOk, LevelsOk, Remaining;
      ghost var s := S();
      Decide(p);
      StructBound(S());
      RemainingDecide(s, |assumptions|);
    }

    /**
     * Search for a model of the formula under the assumptions, for at most nofConflicts conflicts unless
     * that is negative. The loop terminates whatever the limit, because Remaining decreases.
     */
    method Search(nofConflicts: int, limited: bool) returns (status: LBool)
      requires Searching() && conflict == [] && forall p :: p in assumptions ==> p.v < |assigns|
      modifies this`ca, this`watches, this`dirty, this`dirties, this`assigns, this`vardata, this`trail,
               this`pos, this`qhead, this`ok, this`learnts, this`clauses, this`activity, this`claInc, this`orderHeap,
               this`trailLim, this`seen, this`conflict, this`polarity, this`analyzeToclear, this`conflicts
      ensures Verdict(status) && |assigns| == |old(assigns)|
      ensures status == Undef ==> ok && Sound() && trailLim == [] && conflict == []
      ensures nofConflicts < 0 && !limited ==> status != Undef
      ensures status == Undef && !limited ==> conflicts >= old(conflicts) + nofConflicts
      ensures nofConflicts >= 0 && (status == True || (status == False && conflict != [])) ==>
                conflicts < old(conflicts) + nofConflicts
      ensures Base() && ((status == False && conflict == []) || (ok && Sound() && qhead == |trail|))
    {
      hide Searching, Base, Sound, Verdict, Left, InConflict;
      var conflictC := 0;
      while true
        invariant Searching() && conflict == [] && |assigns| == |old(assigns)|
        invariant conflictC >= 0 && conflicts == old(conflicts) + conflictC
        decreases Left()
      {
        LeftPositive();
        var confl := PropagateStep();
        if confl != CREF_UNDEF {
          CountConflict(confl);
          conflictC := conflictC + 1;
          if |trailLim| == 0 {
            RootConflictVerdict(confl);
            return False;
          }
          ConflictStep(confl);
        } else {
          var outOfBudget: bool := *;
          if (nofConflicts >= 0 && conflictC >= nofConflicts) || (limited && outOfBudget) {
            GiveUp();
            return Undef;
          }
          status := Extend();
          if status != Undef {
            VerdictParts(status);
            return status;
          }
        }
      }
    }

    /** Propagation has run into a falsified clause. */
    ghost predicate InConflict(confl: CRef)
      reads this
    {
      && Base() && AssumptionsOk(S(), assumptions) && ok && LevelsOk(trailLim, |trail|, |assumptions|)
      && WatchInv(ca, watches, assigns, vardata, pos, LastLim(trailLim))
      && exists q :: LastLim(trailLim) <= q < |trail| && Conflicting(ca, assigns, confl, trail[q])
    }

    /** The conflicts met so far; nothing else in a search raises the count. */
    method CountConflict(ghost confl: CRef)
      requires InConflict(confl)
      modifies this`conflicts
      ensures conflicts == old(conflicts) + 1 && InConflict(confl) && Left() == old(Left())
    {
      hide Struct, SemOk, Facts, WatchInv, DirtyOk, ListsOk, HeapOk, AssumptionsOk, LevelsOk, Conflicting, Remaining;
      conflicts := conflicts + 1;
    }

    lemma LeftPositive()
      requires Searching()
      ensures Left() > 0
    {
      RemainingBound(S(), |assumptions|);
    }

    method PropagateStep() returns (confl: CRef)
      requires Searching()
      modifies this`ca, this`watches, this`dirty, this`dirties, this`assigns, this`vardata, this`trail,
               this`pos, this`qhead
      ensures confl == CREF_UNDEF ==> Searching() && qhead == |trail|
      ensures confl != CREF_UNDEF ==> InConflict(confl)
      ensures Left() <= old(Left()) && |assigns| == |old(assigns)|
    {
      hide Struct, SemOk, Facts, WatchInv, DirtyOk, ListsOk, HeapOk, AssumptionsOk, LevelsOk, Remaining, Conflicting;
      ghost var s := S();
      confl := PropagateAll();
      RemainingGrow(s, S(), |assumptions|);
    }

    lemma RootConflictVerdict(confl: CRef)
      requires InConflict(confl) && trailLim == [] && conflict == []
      ensures Verdict(False) && Base()
    {
      hide Struct, SemOk, Facts, WatchInv, DirtyOk, ListsOk, HeapOk, AssumptionsOk, LevelsOk, Entails, Unsat,
        Conflicting;
      var q :| LastLim(trailLim) <= q < |trail| && Conflicting(ca, assigns, confl, trail[q]);
      ConflictAtRoot(formula, S(), confl, trail[q]);
      UnsatEntails(formula);
    }

    lemma VerdictParts(status: LBool)
      requires ok ==> Sound() && qhead == |trail|
      requires ok || (status == False && conflict == [])
      ensures (status == False && conflict == []) || (ok && Sound() && qhead == |trail|)
    {
    }

    method ConflictStep(confl: CRef)
      requires InConflict(confl) && trailLim != []
      modifies this`assigns, this`polarity, this`orderHeap, this`qhead, this`trail, this`trailLim, this`vardata,
               this`pos, this`ca, this`activity, this`claInc, this`watches, this`learnts, this`seen, this`analyzeToclear
      ensures Searching() && Left() < old(Left()) && |assigns| == |old(assigns)|
    {
      hide Struct, SemOk, Facts, WatchInv, DirtyOk, ListsOk, HeapOk, AssumptionsOk, LevelsOk, Conflicting, Left;
      ghost var q :| LastLim(trailLim) <= q < |trail| && Conflicting(ca, assigns, confl, trail[q]);
      HandleConflict(confl, q);
    }

    method GiveUp()
      requires Searching() && conflict == [] && qhead == |trail|
      modifies this`assigns, this`polarity, this`orderHeap, this`qhead, this`trail, this`trailLim
      ensures ok && Base() && Sound() && trailLim == [] && qhead == |trail| && |assigns| == |old(assigns)|
      ensures Verdict(Undef)
    {
      hide Struct, SemOk, Facts, WatchInv, DirtyOk, ListsOk, HeapOk, AssumptionsOk, LevelsOk;
      Restart();
    }

    /** Back to level 0. */
    method Restart()
      requires Base() && Sound() && qhead == |trail|
      modifies this`assigns, this`polarity, this`orderHeap, this`qhead, this`trail, this`trailLim
      ensures Base() && Sound() && trailLim == [] && qhead == |trail| && |assigns| == |old(assigns)|
    {
      ghost var s := S();
      hide Struct, SemOk, Facts, WatchInv, DirtyOk, ListsOk, HeapOk, AssumptionsOk;
      if trailLim != [] {
        RestartKeeps(formula, s, qhead, assumptions);
      }
      CancelUntil(0);
    }

    // -------------------------------------------------------------- the public interface

    /** Between public operations everything is propagated at level 0, or the formula is known to be unsatisfiable. */
    ghost predicate Valid()
      reads this
    {
      if ok then Base() && Sound() && trailLim == [] && qhead == |trail| else Unsat(formula) && |decision| == |assigns|
    }

    constructor ()
      ensures Valid() && ok && formula == [] && |assigns| == 0 && decision == []
    {
      hide Struct, SemOk, Facts, WatchInv, DirtyOk, ListsOk, AssumptionsOk, Unsat;
      ok, clauses, learnts, ca, watches := true, [], [], [], map[];
      dirty, dirties, assigns, decision, polarity := {}, [], [], [], [];
      orderHeap, trail, trailLim, vardata, qhead, pos := {}, [], [], [], 0, [];
      seen, analyzeToclear, conflict, assumptions, model := [], [], [], [], [];
      activity, claInc, conflicts, phaseSaving, ccminMode := [], 1.0, 0, 2, 2;
      formula := [];
      new;
      InitialState();
    }

    /** Add a variable; `sign` is its preferred polarity, `dvar` says whether it may be decided. */
    method NewVar(sign: bool, dvar: bool) returns (v: Var)
      requires Valid()
      modifies this`watches, this`assigns, this`vardata, this`seen, this`polarity, this`decision, this`orderHeap,
               this`pos
      ensures Valid() && v == |old(assigns)| && |assigns| == v + 1
      ensures decision == old(decision) + [dvar]
    {
      ghost var s := S();
      hide Struct, SemOk, Facts, WatchInv, DirtyOk, ListsOk, AssumptionsOk, Unsat;
      if ok {
        WidenedKeeps(formula, s, qhead, dirty, dirties, assumptions);
      }
      v := Widen(sign, dvar);
    }

    method Widen(sign: bool, dvar: bool) returns (v: Var)
      requires |decision| == |assigns|
      modifies this`watches, this`assigns, this`vardata, this`seen, this`polarity, this`decision, this`orderHeap,
               this`pos
      ensures v == |old(assigns)| && S() == Widened(old(S())) && decision == old(decision) + [dvar]
      ensures old(HeapOk(assigns, decision, polarity, orderHeap)) ==> HeapOk(assigns, decision, polarity, orderHeap)
      ensures seen == old(seen) + [false]
    {
      hide HeapOk;
      if HeapOk(assigns, decision, polarity, orderHeap) {
        HeapWiden(assigns, decision, polarity, orderHeap, dvar, sign);
      }
      v := |assigns|;
      watches := watches[Lit(v, false) := []][Lit(v, true) := []];
      assigns := assigns + [Undef];
      vardata := vardata + [VarData(CREF_UNDEF, 0)];
      seen := seen + [false];
      polarity := polarity + [sign];
      decision := decision + [dvar];
      pos := pos + [0];
      InsertVarOrder(v);
    }

    /** Add a problem clause. The result is false exactly when the solver found the formula unsatisfiable. */
    method AddClause(ps: seq<Lit>) returns (b: bool)
      requires Valid() && forall x :: x in ps ==> x.v < |assigns|
      modifies this`ca, this`watches, this`dirty, this`dirties, this`assigns, this`vardata, this`trail,
               this`pos, this`qhead, this`ok, this`clauses, this`activity, this`formula
      ensures Valid() && b == ok && formula == old(formula) + [ps] && |assigns| == |old(assigns)|
      ensures b ==> qhead == |trail| && UnitFree(ca, assigns)
    {
      if !ok {
        UnsatAppend(formula, ps);
        formula := formula + [ps];
        return false;
      }
      hide Base, Sound, Unsat, Trivial, NoPair, UnitFree;
      var skip, kept := NormaliseLits(assigns, ps);
      if skip {
        SkipClause(ps);
      } else {
        InsertClause(ps, kept);
      }
      if ok {
        ValidUnitFree();
      }
      return ok;
    }

    lemma ValidUnitFree()
      requires Base() && Sound() && qhead == |trail|
      ensures UnitFree(ca, assigns)
    {
      hide Struct, WatchInv, UnitFree;
      PropagatedUnitFree(S());
    }

    /** A clause that holds anyway is only recorded. */
    method SkipClause(ps: seq<Lit>)
      requires Base() && Sound() && trailLim == [] && Trivial(assigns, ps)
      modifies this`formula
      ensures Base() && Sound() && formula == old(formula) + [ps]
    {
      hide Struct, SemOk, Facts, WatchInv, DirtyOk, ListsOk, HeapOk, AssumptionsOk, Trivial;
      AddTrivial(formula, S(), ps);
      formula := formula + [ps];
    }

    method InsertClause(ps: seq<Lit>, kept: seq<Lit>)
      requires Base() && Sound() && trailLim == [] && qhead == |trail| && ok && NoPair(kept)
      requires forall x :: x in kept ==> x in ps && IsUndef(assigns, x)
      requires forall x :: x in ps ==> x in kept || IsFalse(assigns, x)
      modifies this`ca, this`watches, this`dirty, this`dirties, this`assigns, this`vardata, this`trail,
               this`pos, this`qhead, this`ok, this`clauses, this`activity, this`formula
      ensures Valid() && formula == old(formula) + [ps] && |assigns| == |old(assigns)|
    {
      hide Base, Sound, NoPair;
      if |kept| == 0 {
        RejectClause(ps);
      } else if |kept| == 1 {
        AddUnitClause(ps, kept[0]);
      } else {
        AddLongClause(ps, kept);
      }
    }

    method RejectClause(ps: seq<Lit>)
      requires Base() && Sound() && trailLim == [] && forall x :: x in ps ==> IsFalse(assigns, x)
      modifies this`ok, this`formula
      ensures Valid() && !ok && formula == old(formula) + [ps]
    {
      hide Struct, SemOk, Facts, WatchInv, DirtyOk, ListsOk, HeapOk, AssumptionsOk, Unsat;
      AddEmpty(formula, S(), ps);
      HeapSizes(assigns, decision, polarity, orderHeap);
      ok := false;
      formula := formula + [ps];
    }

    method AddUnitClause(ps: seq<Lit>, x: Lit)
      requires Base() && Sound() && trailLim == [] && ok
      requires x in ps && IsUndef(assigns, x) && forall y :: y in ps ==> y == x || IsFalse(assigns, y)
      modifies this`ca, this`watches, this`dirty, this`dirties, this`assigns, this`vardata, this`trail,
               this`pos, this`qhead, this`ok, this`formula
      ensures Valid() && formula == old(formula) + [ps] && |assigns| == |old(assigns)|
    {
      hide SemOk, Facts, WatchInv, DirtyOk, ListsOk, HeapOk, AssumptionsOk, Unsat, Conflicting, Struct, NoDeleted;
      ghost var s := S();
      AddUnit(formula, s, ps, x);
      UnitKeeps(s, x, qhead, assumptions);
      HeapAssign(assigns, decision, polarity, orderHeap, x.v, if x.neg then False else True);
      UncheckedEnqueue(x, CREF_UNDEF);
      formula := formula + [ps];
      PropagateRoot();
    }

    /** Propagate at level 0 and record the outcome. */
    method PropagateRoot()
      requires Base() && Sound() && trailLim == []
      modifies this`ca, this`watches, this`dirty, this`dirties, this`assigns, this`vardata, this`trail,
               this`pos, this`qhead, this`ok
      ensures Valid() && |assigns| == |old(assigns)|
    {
      hide SemOk, Facts, WatchInv, DirtyOk, ListsOk, HeapOk, AssumptionsOk, Unsat, Conflicting, Struct, NoDeleted;
      var confl := PropagateAll();
      if confl != CREF_UNDEF {
        ghost var q :| LastLim(trailLim) <= q < |trail| && Conflicting(ca, assigns, confl, trail[q]);
        ConflictAtRoot(formula, S(), confl, trail[q]);
        HeapSizes(assigns, decision, polarity, orderHeap);
      }
      ok := confl == CREF_UNDEF;
    }

    method AddLongClause(ps: seq<Lit>, kept: seq<Lit>)
      requires Base() && Sound() && trailLim == [] && qhead == |trail| && ok && |kept| >= 2 && NoPair(kept)
      requires forall x :: x in kept ==> x in ps && IsUndef(assigns, x)
      requires forall x :: x in ps ==> x in kept || IsFalse(assigns, x)
      modifies this`ca, this`watches, this`clauses, this`activity, this`formula
      ensures Valid() && ok && formula == old(formula) + [ps]
    {
      ghost var s := S();
      hide Struct, SemOk, Facts, WatchInv, DirtyOk, ListsOk, HeapOk, AssumptionsOk, NoPair, Attached;
      AddKeeps(formula, s, ps, kept, qhead, dirty, dirties, clauses, learnts, assumptions);
      AttachedFields(s, kept, false);
      InstallProblem(kept);
      formula := formula + [ps];
    }

    method InstallProblem(c: seq<Lit>)
      requires |c| >= 2 && Neg(c[0]) in watches && Neg(c[1]) in watches && c[0] != c[1] && |activity| == |ca|
      modifies this`ca, this`watches, this`clauses, this`activity
      ensures S() == Attached(old(S()), c, false) && |activity| == |ca|
      ensures clauses == old(clauses) + [|old(ca)|]
    {
      var cr := AllocAttach(c, false);
      clauses := clauses + [cr];
    }

    /** Set the literals to be assumed by the next Solve. */
    method Assume(ps: seq<Lit>)
      requires Valid()
      modifies this`assumptions
      ensures Valid() && assumptions == ps
    {
      hide Struct, SemOk, Facts, WatchInv, DirtyOk, ListsOk, HeapOk, Unsat;
      assumptions := ps;
    }

    /**
     * minisat's `solve_` under the current assumptions: it repeats Search, whose results are listed in `results`. After
     * twelve of them it gives up (`capped`) and reports True whatever the last one said, without a model and without
     * returning to level 0. In every other case the verdict is right.
     */
    method Solve(limited: bool) returns (status: LBool, capped: bool, results: seq<LBool>)
      requires Valid() && forall p :: p in assumptions ==> p.v < |assigns|
      modifies this`ca, this`watches, this`dirty, this`dirties, this`assigns, this`vardata, this`trail,
               this`pos, this`qhead, this`ok, this`learnts, this`clauses, this`activity, this`claInc, this`orderHeap,
               this`trailLim, this`seen, this`conflict, this`polarity, this`analyzeToclear, this`conflicts, this`model
      ensures if old(ok) then Repeated(results) && status == Reported(results, !capped)
              else status == False && !capped && results == []
      ensures !limited ==> status != Undef && (capped <==> |results| > 11)
      ensures |assigns| == |old(assigns)|
      ensures !capped ==> Valid() && Answer(status)
      ensures capped ==> |results| == 12 && model == [] && Base() && Verdict(results[11])
      ensures capped && results[11] == Undef ==> Valid()
      ensures capped && results[11] == False ==> Contradicts(formula, assumptions)
      ensures capped && results[11] == True && (forall v :: 0 <= v < |decision| ==> decision[v]) ==>
                !Contradicts(formula, assumptions)
      ensures capped && |decision| > 0 ==> !Answer(status)
    {
      hide Base, Sound, Searching, Verdict;
      ClearResults();
      if !ok {
        UnsatEntails(formula);
        return False, false, [];
      }
      hide Answer, Valid;
      status, capped, results := SearchLoop(limited);
      if capped {
        CappedParts(results);
        CappedTruth(results[11]);
      } else {
        FinishSolve(status);
      }
    }

    lemma CappedParts(results: seq<LBool>)
      requires |results| == 12 && model == [] && Base()
      requires results[11] == Undef ==> Searching() && trailLim == [] && qhead == |trail|
      ensures results[11] == Undef ==> Valid()
      ensures |decision| > 0 ==> !Answer(True)
    {
      hide Base, Sound;
      if results[11] == Undef {
        SearchingParts();
      }
    }

    /** Of the verdicts that the cap overrules, False means that its report is wrong, and True that it is right. */
    lemma CappedTruth(last: LBool)
      requires Verdict(last)
      ensures last == False ==> Contradicts(formula, assumptions)
      ensures last == True && (forall v :: 0 <= v < |decision| ==> decision[v]) ==> !Contradicts(formula, assumptions)
    {
      if last == False {
        ConflictContradicts(formula, conflict, assumptions);
      }
    }

    /**
     * glucose's `solve_` under the current assumptions, which has no such cap. `limits` says after how many conflicts
     * each search restarts; the search after the last restart has no limit, so that it stops only with a verdict or
     * out of budget.
     */
    method SolveRestarting(limits: seq<int>, limited: bool) returns (status: LBool)
      requires Valid() && forall p :: p in assumptions ==> p.v < |assigns|
      modifies this`ca, this`watches, this`dirty, this`dirties, this`assigns, this`vardata, this`trail,
               this`pos, this`qhead, this`ok, this`learnts, this`clauses, this`activity, this`claInc, this`orderHeap,
               this`trailLim, this`seen, this`conflict, this`polarity, this`analyzeToclear, this`conflicts, this`model
      ensures Valid() && Answer(status) && |assigns| == |old(assigns)|
      ensures !limited ==> status != Undef
    {
      hide Base, Sound, Searching, Verdict;
      ClearResults();
      if !ok {
        UnsatEntails(formula);
        return False;
      }
      hide Answer, Valid;
      status := RestartLoop(limits, limited);
      FinishSolve(status);
    }

    method RestartLoop(limits: seq<int>, limited: bool) returns (status: LBool)
      requires Searching() && trailLim == [] && qhead == |trail| && conflict == []
      requires forall p :: p in assumptions ==> p.v < |assigns|
      modifies this`ca, this`watches, this`dirty, this`dirties, this`assigns, this`vardata, this`trail,
               this`pos, this`qhead, this`ok, this`learnts, this`clauses, this`activity, this`claInc, this`orderHeap,
               this`trailLim, this`seen, this`conflict, this`polarity, this`analyzeToclear, this`conflicts
      ensures |assigns| == |old(assigns)| && (!limited ==> status != Undef)
      ensures Verdict(status) && Base() && ((status == False && conflict == []) || (ok && Sound() && qhead == |trail|))
    {
      hide Searching, Base, Sound, Verdict;
      VerdictUndef();
      SearchingParts();
      status := Undef;
      var restarts := 0;
      while status == Undef
        invariant 0 <= restarts <= |limits| + 1 && |assigns| == |old(assigns)|
        invariant Verdict(status) && Base()
        invariant status == Undef ==>
                    restarts <= |limits| && Searching() && trailLim == [] && conflict == []
        invariant (status == False && conflict == []) || (ok && Sound() && qhead == |trail|)
        decreases |limits| + 1 - restarts, status == Undef
      {
        // A search without a limit that ends undecided has run out of budget.
        var withinBudget: bool := *;
        var limit := if restarts < |limits| then limits[restarts] else -1;
        status := SearchOnce(limit, limited);
        if limited && (!withinBudget || limit < 0) {
          break;
        }
        restarts := restarts + 1;
      }
    }

    method ClearResults()
      requires Valid()
      modifies this`model, this`conflict
      ensures model == [] && conflict == [] && Valid() && (ok ==> Searching() && trailLim == [] && qhead == |trail|)
    {
      hide Struct, SemOk, Facts, WatchInv, DirtyOk, ListsOk, HeapOk, AssumptionsOk, LevelsOk, Unsat;
      LevelsRoot(|trail|, |assumptions|);
      model, conflict := [], [];
    }

    method SearchLoop(limited: bool) returns (status: LBool, capped: bool, results: seq<LBool>)
      requires Searching() && trailLim == [] && qhead == |trail| && conflict == []
      requires forall p :: p in assumptions ==> p.v < |assigns|
      modifies this`ca, this`watches, this`dirty, this`dirties, this`assigns, this`vardata, this`trail,
               this`pos, this`qhead, this`ok, this`learnts, this`clauses, this`activity, this`claInc, this`orderHeap,
               this`trailLim, this`seen, this`conflict, this`polarity, this`analyzeToclear, this`conflicts
      ensures Repeated(results) && status == Reported(results, !capped)
      ensures (capped ==> |results| == 12) && (!limited ==> status != Undef && (capped <==> |results| > 11))
      ensures |assigns| == |old(assigns)|
      ensures var last := results[|results| - 1];
              && Verdict(last) && Base() && ((last == False && conflict == []) || (ok && Sound() && qhead == |trail|))
              && (last == Undef ==> Searching() && trailLim == [] && qhead == |trail|)
    {
      hide Searching, Base, Sound, Verdict;
      VerdictUndef();
      SearchingParts();
      status, capped, results := Undef, false, [];
      var currRestarts := 0;
      while status == Undef
        invariant 0 <= currRestarts == |results| <= 11 && |assigns| == |old(assigns)|
        invariant forall i :: 0 <= i < |results| - 1 ==> results[i] == Undef
        invariant if results == [] then status == Undef else results[|results| - 1] == status
        invariant Verdict(status) && Base()
        invariant status == Undef ==> Searching() && trailLim == [] && conflict == []
        invariant (status == False && conflict == []) || (ok && Sound() && qhead == |trail|)
        decreases 12 - currRestarts, status == Undef
      {
        var limit: int := *;
        status := SearchOnce(limit, limited);
        results := results + [status];
        var withinBudget: bool := *;
        if limited && !withinBudget {
          break;
        }
        if currRestarts > 10 {
          return True, true, results;
        }
        currRestarts := currRestarts + 1;
      }
    }

    lemma SearchingParts()
      requires Searching()
      ensures Base() && Sound() && ok
    {
    }

    method SearchOnce(limit: int, limited: bool) returns (status: LBool)
      requires Searching() && conflict == [] && forall p :: p in assumptions ==> p.v < |assigns|
      modifies this`ca, this`watches, this`dirty, this`dirties, this`assigns, this`vardata, this`trail,
               this`pos, this`qhead, this`ok, this`learnts, this`clauses, this`activity, this`claInc, this`orderHeap,
               this`trailLim, this`seen, this`conflict, this`polarity, this`analyzeToclear, this`conflicts
      ensures Verdict(status) && Base() && |assigns| == |old(assigns)|
      ensures status == Undef ==> Searching() && trailLim == [] && conflict == []
      ensures limit < 0 && !limited ==> status != Undef
      ensures (status == False && conflict == []) || (ok && Sound() && qhead == |trail|)
    {
      hide Struct, SemOk, Facts, WatchInv, DirtyOk, ListsOk, HeapOk, AssumptionsOk, SatAll, LevelsOk, Entails;
      status := Search(limit, limited);
      LevelsRoot(|trail|, |assumptions|);
    }

    /** What a verdict of Solve promises. */
    ghost predicate Answer(status: LBool)
      reads this
    {
      && (status == False ==> Entails(formula, conflict) && forall x :: x in conflict ==> Neg(x) in assumptions)
      && (status == False && conflict == [] ==> !ok)
      && (status == True ==>
            && |model| == |decision|
            && (forall v :: 0 <= v < |model| && decision[v] ==> model[v] != Undef)
            && ((forall v :: 0 <= v < |model| ==> model[v] != Undef) ==>
                  && SatAll(TrailModel(model), formula)
                  && forall p :: p in assumptions ==> Holds(TrailModel(model), p)))
    }

    /** Copy the model or record unsatisfiability, and return to level 0. */
    method FinishSolve(status: LBool)
      requires Verdict(status) && Base() && model == []
      requires (status == False && conflict == []) || (ok && Sound() && qhead == |trail|)
      modifies this`assigns, this`polarity, this`orderHeap, this`qhead, this`trail, this`trailLim, this`ok, this`model
      ensures Valid() && Answer(status) && |assigns| == |old(assigns)|
    {
      hide Struct, SemOk, Facts, WatchInv, DirtyOk, ListsOk, HeapOk, AssumptionsOk, SatAll, Entails;
      if status == False && conflict == [] {
        HeapSizes(assigns, decision, polarity, orderHeap);
        EntailsUnsat(formula);
        ok := false;
        CancelUntil(0);
        return;
      }
      if status == True {
        model := assigns;
      }
      Restart();
    }

    lemma VerdictUndef()
      ensures Verdict(Undef)
    {
    }
  }
}
