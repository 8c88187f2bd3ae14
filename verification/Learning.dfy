/** Backjumping and asserting the learnt clause. */
module Learning {
  import opened Sat
  import opened SolverState
  import opened Propagation
  import opened Meaning
  import opened Backtracking
  import opened Analysis

  /** After backjumping the first literal is unassigned and the others are false, the second at the top level. */
  ghost predicate UnitUnder(s: State, c: seq<Lit>) {
    && |c| > 0 && NoPair(c)
    && IsUndef(s.assigns, c[0])
    && (forall k :: 1 <= k < |c| ==> IsFalse(s.assigns, c[k]) && c[k].v < |s.vd|)
    && (if |c| == 1 then s.lim == [] else s.vd[c[1].v].level == |s.lim|)
  }

  lemma AssertingUnit(s: State, c: seq<Lit>, bt: nat)
    requires Struct(s) && Asserting(s, c, bt)
    ensures Struct(Cancelled(s, bt)) && UnitUnder(Cancelled(s, bt), c)
    ensures bt > 0 ==> LastLim(Cancelled(s, bt).lim) < |Cancelled(s, bt).trail|
  {
    CancelAssigns(s, bt);
    CancelStruct(s, bt);
    var s' := Cancelled(s, bt);
    if |c| > 1 {
      FalseAssigned(s', c[1]);
      assert AtLevel(s'.lim, s'.vd[c[1].v].level, s'.pos[c[1].v]);
    }
  }

  lemma CancelBounds(s: State, c: seq<Lit>, bt: nat)
    requires Struct(s) && Asserting(s, c, bt)
    ensures bt < |s.lim| && s.lim[bt] <= |s.trail| && |s.pos| == |s.assigns|
    ensures LastLim(s.lim[..bt]) <= s.lim[bt]
  {
  }

  lemma DistinctVarsClause(s: State, c: seq<Lit>)
    requires UnitUnder(s, c) && |c| >= 2
    ensures ClauseOk(c, |s.assigns|)
  {
    forall p | p in c ensures p.v < |s.assigns| {
      var k :| 0 <= k < |c| && c[k] == p;
    }
  }

  /** The learnt clause can serve as the reason of its first literal. */
  lemma LearntReason(s: State, c: seq<Lit>)
    requires Struct(s) && UnitUnder(s, c) && |c| >= 2
    ensures ClauseOk(c, |s.assigns|)
    ensures Neg(c[0]) in s.watches && Neg(c[1]) in s.watches && c[0] != c[1]
    ensures Enqueueable(Attached(s, c, true), c[0], |s.ca|)
    ensures c[0].v < |s.assigns| && c[0].v < |s.vd| && c[0].v < |s.pos|
  {
    DistinctVarsClause(s, c);
    AttachStruct(s, c, true);
    forall k | 1 <= k < |c| ensures IsFalse(s.assigns, c[k]) && c[k].v < |s.pos| && s.pos[c[k].v] < |s.trail| {
      FalseAssigned(s, c[k]);
    }
  }

  /** The new clause itself: its first literal is true, its second was assigned on the current level. */
  lemma LearntClauseWatched(s: State, c: seq<Lit>, r: CRef, w: nat, q: nat)
    requires UnitUnder(s, c) && |c| >= 2 && c[0].v < |s.vd| && c[0].v < |s.pos|
    requires var s' := Enqueued(s, c[0], r); FalseWatch(c, w, s'.assigns, s'.vd, s'.pos, q)
    requires |s.ca| > 0 && s.ca[|s.ca| - 1].lits == c
    ensures var s' := Enqueued(s, c[0], r);
            Excused(s'.ca, s'.watches, s'.assigns, s'.vd, |s.ca| - 1, w, s'.vd[c[w].v].level)
  {
    var s' := Enqueued(s, c[0], r);
    assert w == 1;
    assert TrueAt(s'.assigns, s'.vd, c[0], s'.vd[c[1].v].level);
  }

  /** Asserting the learnt clause restores the watch invariant. */
  lemma LearntWatchInv(s: State, c: seq<Lit>, q: nat)
    requires Struct(s) && UnitUnder(s, c) && |c| >= 2 && q <= |s.trail|
    requires Neg(c[0]) in s.watches && Neg(c[1]) in s.watches && c[0] != c[1]
    requires WatchInv(s.ca, s.watches, s.assigns, s.vd, s.pos, q)
    ensures c[0].v < |s.assigns| && c[0].v < |s.vd| && c[0].v < |s.pos|
    ensures var s' := Enqueued(Attached(s, c, true), c[0], |s.ca|);
            WatchInv(s'.ca, s'.watches, s'.assigns, s'.vd, s'.pos, q)
  {
    LearntReason(s, c);
    hide Struct, WatchInv, Enqueueable, TrueKept, FalseWatch, Excused, ClauseOk;
    assert IsUndef(s.assigns, c[0]);
    var t := Attached(s, c, true);
    EnqueueTrueKept(t, c[0], |s.ca|);
    var s' := Enqueued(t, c[0], |s.ca|);
    forall cr, w: nat | Live(s'.ca, cr) && FalseWatch(s'.ca[cr].lits, w, s'.assigns, s'.vd, s'.pos, q)
      ensures FalseWatch(s'.ca[cr].lits, w, s'.assigns, s'.vd, s'.pos, q)
      ensures LearntExcused(s', cr, w)
    {
      if cr < |s.ca| {
        LearntOldClause(s, c, cr, w, q);
      } else {
        LearntClauseWatched(t, c, |s.ca|, w, q);
      }
    }
    LearntInvIntro(s', q);
  }

  ghost predicate LearntExcused(s: State, cr: CRef, w: nat) {
    && 0 <= cr < |s.ca| && w < |s.ca[cr].lits| && s.ca[cr].lits[w].v < |s.vd|
    && Excused(s.ca, s.watches, s.assigns, s.vd, cr, w, s.vd[s.ca[cr].lits[w].v].level)
  }

  lemma LearntInvIntro(s: State, q: nat)
    requires forall cr, w: nat :: Live(s.ca, cr) && FalseWatch(s.ca[cr].lits, w, s.assigns, s.vd, s.pos, q) ==>
               LearntExcused(s, cr, w)
    ensures WatchInv(s.ca, s.watches, s.assigns, s.vd, s.pos, q)
  {
    forall cr, w: nat | Live(s.ca, cr) && FalseWatch(s.ca[cr].lits, w, s.assigns, s.vd, s.pos, q)
      ensures Excused(s.ca, s.watches, s.assigns, s.vd, cr, w, s.vd[s.ca[cr].lits[w].v].level)
    {
      assert LearntExcused(s, cr, w);
    }
  }

  lemma LearntOldClause(s: State, c: seq<Lit>, cr: CRef, w: nat, q: nat)
    requires |c| >= 2 && Neg(c[0]) in s.watches && Neg(c[1]) in s.watches && c[0] != c[1]
    requires IsUndef(s.assigns, c[0]) && c[0].v < |s.vd| && c[0].v < |s.pos| && q <= |s.trail|
    requires WatchInv(s.ca, s.watches, s.assigns, s.vd, s.pos, q) && Live(s.ca, cr)
    requires var s' := Enqueued(Attached(s, c, true), c[0], |s.ca|);
             FalseWatch(s.ca[cr].lits, w, s'.assigns, s'.vd, s'.pos, q)
    ensures LearntExcused(Enqueued(Attached(s, c, true), c[0], |s.ca|), cr, w)
  {
    var t := Attached(s, c, true);
    var l := s.vd[s.ca[cr].lits[w].v].level;
    AttachExcused(s, c, true, cr, w, l);
    EnqueueTrueKept(t, c[0], |s.ca|);
    ExcusedSameLists(t, cr, w, l, Enqueued(t, c[0], |s.ca|));
  }

  /** A unit learnt clause is a new level-0 fact. */
  lemma UnitMeans(f: Formula, s: State, p: Lit)
    requires Means(f, s) && s.lim == [] && Entails(f, [p]) && p.v < |s.assigns| == |s.vd| == |s.pos|
    ensures Means(f, Enqueued(s, p, CREF_UNDEF))
  {
    SemFact(f, s.ca, s.trail, p);
    assert Facts(s) == s.trail && Facts(Enqueued(s, p, CREF_UNDEF)) == s.trail + [p];
  }

  lemma LearntMeans(f: Formula, s: State, c: seq<Lit>)
    requires Struct(s) && UnitUnder(s, c) && |c| >= 2 && Means(f, s) && Entails(f, c)
    requires Neg(c[0]) in s.watches && Neg(c[1]) in s.watches && c[0] != c[1]
    ensures Means(f, Enqueued(Attached(s, c, true), c[0], |s.ca|))
  {
    LearnMeans(f, s.ca, Facts(s), c);
    LearntReason(s, c);
    ImplyMeans(f, Attached(s, c, true), c[0], |s.ca|);
  }
}
