/** The SatELite-style preprocessor: subsumption, strengthening and variable elimination. */
module Preprocessor {
  import opened Sat
  import opened Resolution
  import opened Reconstruction
  import opened SimpState
  import opened Settling
  import opened Elimination
  import opened ClauseInput
  import opened Sorting

  class SimpSolver {
    var ok: bool
    var ca: Pool
    var assigns: seq<LBool>
    var trail: seq<Lit>
    var decision: seq<bool>
    var occurs: seq<seq<CRef>>
    var dirty: seq<bool>
    var dirties: seq<Var>
    var touched: seq<bool>
    var nTouched: nat
    var queue: seq<CRef>
    var elimHeap: set<Var>
    var frozen: seq<bool>
    var eliminated: seq<bool>
    var elimclauses: seq<nat>
    var bwdsubAssigns: nat
    var useSimplification: bool
    var useElim: bool
    var grow: int
    var clauseLim: int
    var subsumptionLim: int
    var asynchInterrupt: bool
    var model: seq<LBool>
    ghost var original: Formula
    ghost var recs: seq<Record>
    ghost var tried: seq<Var>

    ghost function S(): Simp
      reads this
    {
      Simp(ca, assigns, trail, occurs, dirty, eliminated, queue)
    }

    /** The sizes of the per-variable tables, while simplification is on. */
    ghost predicate Simplifying()
      reads this`useSimplification, this`frozen, this`touched, this`occurs, this`dirty, this`eliminated,
            this`decision, this`assigns, this`dirties, this`elimHeap
    {
      && useSimplification
      && |frozen| == |touched| == |occurs| == |dirty| == |eliminated| == |decision| == |assigns|
      && TablesFit(dirty, dirties, elimHeap, |assigns|)
    }

    /** Every dirty list is recorded as such, and only existing variables are named. */
    static ghost predicate TablesFit(dirty: seq<bool>, dirties: seq<Var>, heap: set<Var>, n: nat) {
      && (forall v :: 0 <= v < |dirty| && dirty[v] ==> v in dirties)
      && (forall v :: v in dirties ==> v < n)
      && (forall v :: v in heap ==> v < n)
    }

    static lemma TablesGrow(dirty: seq<bool>, dirties: seq<Var>, heap: set<Var>, n: nat)
      requires TablesFit(dirty, dirties, heap, n)
      ensures TablesFit(dirty + [false], dirties, heap + {n}, n + 1)
    {
    }

    // ---------------------------------------------------------------- unit propagation at level 0

    method UncheckedEnqueue(p: Lit, ghost leaving: set<Var>)
      requires Shape(S(), leaving) && IsUndef(assigns, p)
      modifies this`assigns, this`trail
      ensures S() == WithFact(old(S()), p) && Shape(S(), leaving)
    {
      FactKeeps(S(), p, leaving);
      assigns := assigns[p.v := if p.neg then False else True];
      trail := trail + [p];
    }

    /** Scan a clause: all false, a unit to enqueue, or nothing to do. */
    method UnitStep(cr: CRef, ghost leaving: set<Var>) returns (conflict: bool)
      requires Shape(S(), leaving) && Problem(ca, cr)
      modifies this`assigns, this`trail
      ensures Shape(S(), leaving) && SameModels(old(S()), S()) && (conflict ==> NoModel(S()))
      ensures old(trail) <= trail && |assigns| == |old(assigns)|
    {
      hide SameModels, NoModel, ClausesFit, OccursSound, OccursComplete, ScratchFits, QueueFits, TrailFits;
      var c := ca[cr].lits;
      var k, i := |c|, 0;
      while i < |c|
        invariant 0 <= i <= |c| && (0 <= k < i || k == |c|)
        invariant forall m :: 0 <= m < i && m != k ==> IsFalse(assigns, c[m])
      {
        if !IsFalse(assigns, c[i]) {
          if k < |c| {
            SameModelsReflexive(S());
            return false;
          }
          k := i;
        }
        i := i + 1;
      }
      SameModelsReflexive(S());
      conflict := k == |c|;
      if conflict {
        AllFalseConflict(S(), cr);
      } else if IsUndef(assigns, c[k]) {
        UnitFollows(S(), cr, k);
        FactModels(S(), c[k]);
        UncheckedEnqueue(c[k], leaving);
      }
    }

    /**
     * Level-0 propagation, as any number of unit steps and reorderings of clause literals, in any order.
     * It stops at a clause whose literals are all false.
     */
    method Propagate(ghost leaving: set<Var>) returns (conflict: bool)
      requires Shape(S(), leaving)
      modifies this`ca, this`assigns, this`trail
      ensures Shape(S(), leaving) && SameModels(old(S()), S()) && (conflict ==> NoModel(S()))
      ensures Shuffled(old(ca), ca) && old(trail) <= trail && |assigns| == |old(assigns)|
    {
      hide SameModels, NoModel, Shape, SameLits;
      var steps: nat := *;
      conflict := false;
      SameModelsReflexive(S());
      ShuffledReflexive(ca);
      while steps > 0 && !conflict
        invariant Shape(S(), leaving) && SameModels(old(S()), S()) && (conflict ==> NoModel(S()))
        invariant Shuffled(old(ca), ca) && old(trail) <= trail && |assigns| == |old(assigns)|
      {
        ghost var s, ca0 := S(), ca;
        var cr: CRef, i: nat, j: nat := *, *, *;
        if Problem(ca, cr) {
          if i < |ca[cr].lits| && j < |ca[cr].lits| {
            PermuteKeeps(S(), cr, i, j, leaving);
            ca := Permuted(ca, cr, i, j);
            ShuffledTransitive(old(ca), ca0, ca);
            SameModelsTransitive(old(S()), s, S());
          }
          s := S();
          conflict := UnitStep(cr, leaving);
          SameModelsTransitive(old(S()), s, S());
        }
        steps := steps - 1;
      }
    }

    // ---------------------------------------------------------------- occurrence lists

    /** Elimination of v is worth a try: it is neither frozen nor eliminated nor assigned. */
    predicate Candidate(v: Var)
      reads this`frozen, this`eliminated, this`assigns
    {
      && (v < |frozen| ==> !frozen[v]) && (v < |eliminated| ==> !eliminated[v])
      && (v < |assigns| ==> assigns[v] == Undef)
    }

    method UpdateElimHeap(v: Var)
      requires v < |assigns| && Simplifying()
      modifies this`elimHeap
      ensures Simplifying() && elimHeap == old(elimHeap) + if Candidate(v) then {v} else {}
    {
      if v in elimHeap || Candidate(v) {
        elimHeap := elimHeap + {v};
      }
    }

    method Smudge(v: Var)
      requires v < |dirty| && Simplifying()
      modifies this`dirty, this`dirties
      ensures Simplifying() && dirty == old(dirty)[v := true]
    {
      if !dirty[v] {
        dirty := dirty[v := true];
        dirties := dirties + [v];
      }
    }

    method RemoveClause(cr: CRef, ghost leaving: set<Var>)
      requires Shape(S(), leaving) && Simplifying() && Problem(ca, cr)
      modifies this`ca, this`dirty, this`dirties, this`elimHeap
      ensures Shape(S(), leaving) && Simplifying() && ca == Deleted(old(ca), cr) && old(elimHeap) <= elimHeap
      ensures forall p :: p in old(ca)[cr].lits && Candidate(p.v) ==> p.v in elimHeap
      ensures Weight(ca) == old(Weight(ca)) - |old(ca)[cr].lits| && |old(ca)[cr].lits| >= 2
    {
      hide OccursSound, OccursComplete, TrailFits, ScratchFits, QueueFits, TablesFit;
      assert ClauseFit(ca[cr], |assigns|, eliminated, leaving);
      LoseClause(ca[cr].lits);
      DeleteKeeps(old(S()), cr, dirty, leaving);
      WeightUpdate(ca, cr, ca[cr].(mark := 1));
      ca := Deleted(ca, cr);
    }

    /** The variables of a clause that goes: their lists become dirty, and eliminating them is worth another try. */
    method LoseClause(c: seq<Lit>)
      requires Simplifying() && forall p :: p in c ==> p.v < |assigns|
      modifies this`dirty, this`dirties, this`elimHeap
      ensures Simplifying() && old(elimHeap) <= elimHeap
      ensures forall p :: p in c && Candidate(p.v) ==> p.v in elimHeap
      ensures forall v :: 0 <= v < |dirty| && (old(dirty)[v] || v in VarsOf(c)) ==> dirty[v]
    {
      hide TablesFit, Candidate;
      var i := 0;
      while i < |c|
        invariant 0 <= i <= |c| && Simplifying() && old(elimHeap) <= elimHeap
        invariant forall k :: 0 <= k < i && Candidate(c[k].v) ==> c[k].v in elimHeap
        invariant forall v :: 0 <= v < |dirty| && (old(dirty)[v] || v in VarsOf(c[..i])) ==> dirty[v]
      {
        assert c[i] in c;
        assert VarsOf(c[..i + 1]) == VarsOf(c[..i]) + {c[i].v} by {
          assert c[..i + 1] == c[..i] + [c[i]];
        }
        UpdateElimHeap(c[i].v);
        Smudge(c[i].v);
        i := i + 1;
      }
      assert c[..|c|] == c;
    }

    /** Drop deleted clauses from one list. */
    method CleanOccurs(v: Var)
      requires OccursSound(ca, occurs, dirty) && OccursComplete(ca, occurs) && Simplifying() && v < |occurs|
      modifies this`occurs, this`dirty
      ensures OccursSound(ca, occurs, dirty) && OccursComplete(ca, occurs) && Simplifying()
      ensures forall x :: 0 <= x < |occurs| && x != v ==> occurs[x] == old(occurs)[x] && dirty[x] == old(dirty)[x]
      ensures !dirty[v] && forall cr :: cr in occurs[v] <==> cr in old(occurs[v]) && Problem(ca, cr)
    {
      var cs, kept, i := occurs[v], [], 0;
      while i < |cs|
        invariant 0 <= i <= |cs| && Distinct(kept)
        invariant forall cr :: cr in kept <==> cr in cs[..i] && Problem(ca, cr)
      {
        assert cs[..i + 1] == cs[..i] + [cs[i]] && cs[i] !in cs[..i];
        assert OccursOk(ca, v, cs[i], dirty[v]);
        if ca[cs[i]].mark != 1 {
          kept := kept + [cs[i]];
        }
        i := i + 1;
      }
      assert cs[..|cs|] == cs;
      occurs, dirty := occurs[v := kept], dirty[v := false];
    }

    /** The list of v, cleaned first if needed. */
    method Lookup(v: Var)
      requires OccursSound(ca, occurs, dirty) && OccursComplete(ca, occurs) && Simplifying() && v < |occurs|
      modifies this`occurs, this`dirty
      ensures OccursSound(ca, occurs, dirty) && OccursComplete(ca, occurs) && Simplifying()
      ensures forall x :: 0 <= x < |occurs| && x != v ==> occurs[x] == old(occurs)[x] && dirty[x] == old(dirty)[x]
      ensures !dirty[v] && forall cr :: cr in occurs[v] <==> cr in old(occurs[v]) && Problem(ca, cr)
    {
      if dirty[v] {
        CleanOccurs(v);
      } else {
        forall cr | cr in occurs[v] ensures Problem(ca, cr) {
          assert OccursOk(ca, v, cr, dirty[v]);
        }
      }
    }

    // ---------------------------------------------------------------- strengthening

    method Enqueue(p: Lit, ghost leaving: set<Var>) returns (b: bool)
      requires Shape(S(), leaving) && p.v < |assigns|
      modifies this`assigns, this`trail
      ensures Shape(S(), leaving) && old(trail) <= trail && |assigns| == |old(assigns)|
      ensures forall a: Model ::
                if b then Models(a, S()) <==> Models(a, old(S())) && Holds(a, p)
                else Models(a, old(S())) ==> !Holds(a, p)
    {
      ghost var s := S();
      if !IsUndef(assigns, p) {
        b := !IsFalse(assigns, p);
        forall a: Model | Models(a, s) ensures Holds(a, p) <==> b {
          if b {
            TrueHolds(a, s, p);
          } else {
            FalseFails(a, s, p);
          }
        }
      } else {
        UncheckedEnqueue(p, leaving);
        b := true;
        WithFactModels(s, p);
      }
    }

    /** A clause of two literals gives way to the fact that remains. */
    method StrengthenToUnit(cr: CRef, l: Lit, ghost leaving: set<Var>) returns (b: bool)
      requires Shape(S(), leaving) && Simplifying() && Problem(ca, cr) && l in ca[cr].lits && |ca[cr].lits| == 2
      requires forall a: Model :: Models(a, S()) ==> SatClause(a, Erased(ca[cr].lits, l))
      modifies this`ca, this`dirty, this`dirties, this`elimHeap, this`assigns, this`trail
      ensures Simplifying() && Shape(S(), leaving) && (b ==> SameModels(old(S()), S()))
      ensures !b ==> NoModel(old(S()))
      ensures Weight(ca) < old(Weight(ca)) && Others(old(ca), ca, cr)
      ensures old(trail) <= trail && |assigns| == |old(assigns)| && !Problem(ca, cr) && old(elimHeap) <= elimHeap
    {
      hide Shape, Models, SameLits, Weight, ClauseFit, TablesFit;
      ghost var s := S();
      ErasedMember(ca[cr].lits, l);
      var c := Erased(ca[cr].lits, l);
      assert c[0] in c && |c| == 1;
      FitVar(S(), cr, c[0], leaving);
      UnitClauseHolds(S(), c);
      hide Others;
      RemoveClause(cr, leaving);
      UnitReplaces(s, S(), cr, c[0]);
      ghost var t := S();
      var dead := SClause(c, 1, Abstraction(c));
      DeadKeeps(S(), cr, dead, leaving);
      WeightUpdate(ca, cr, dead);
      ca := ca[cr := dead];
      assert ca == old(ca)[cr := dead];
      OthersUpdate(old(ca), cr, dead);
      b := Enqueue(c[0], leaving);
      if b {
        ghost var ca1 := ca;
        var conflict := Propagate(leaving);
        OthersShuffled(old(ca), ca1, ca, cr);
        WeightSame(ca1, ca);
        b := !conflict;
      }
    }

    /** A longer clause keeps its place, without l. */
    method StrengthenLong(cr: CRef, l: Lit, ghost leaving: set<Var>)
      requires Shape(S(), leaving) && Simplifying() && Problem(ca, cr) && l in ca[cr].lits && |ca[cr].lits| > 2
      requires forall a: Model :: Models(a, S()) ==> SatClause(a, Erased(ca[cr].lits, l))
      modifies this`ca, this`elimHeap, this`occurs
      ensures Simplifying() && Shape(S(), leaving) && SameModels(old(S()), S())
      ensures Weight(ca) < old(Weight(ca)) && Others(old(ca), ca, cr)
      ensures ca == Strengthened(old(ca), cr, l) && old(elimHeap) <= elimHeap && (Candidate(l.v) ==> l.v in elimHeap)
      ensures occurs == old(occurs)[l.v := Erased(old(occurs)[l.v], cr)]
    {
      hide ClausesFit, OccursSound, OccursComplete, TrailFits, ScratchFits, QueueFits, Models, SameModels, Weight,
        Others;
      ErasedMember(ca[cr].lits, l);
      var c := Erased(ca[cr].lits, l);
      StrengthenKeeps(S(), cr, l, leaving);
      ghost var s := S();
      OthersUpdate(ca, cr, ca[cr].(lits := c, abs := Abstraction(c)));
      WeightUpdate(ca, cr, ca[cr].(lits := c, abs := Abstraction(c)));
      ca := Strengthened(ca, cr, l);
      occurs := occurs[l.v := Erased(occurs[l.v], cr)];
      UpdateElimHeap(l.v);
      StrengthenModels(s, S(), cr, l);
    }

    /** Take the literal l, which is superfluous, out of a clause. */
    method StrengthenClause(cr: CRef, l: Lit, ghost leaving: set<Var>) returns (b: bool)
      requires Shape(S(), leaving) && Simplifying() && Problem(ca, cr) && l in ca[cr].lits
      requires forall a: Model :: Models(a, S()) ==> SatClause(a, Erased(ca[cr].lits, l))
      modifies this`queue, this`ca, this`dirty, this`dirties, this`elimHeap, this`occurs, this`assigns, this`trail
      ensures Simplifying() && (b ==> Shape(S(), leaving) && SameModels(old(S()), S()))
      ensures !b ==> NoModel(old(S()))
      ensures Weight(ca) < old(Weight(ca)) && Others(old(ca), ca, cr)
      ensures old(trail) <= trail && |assigns| == |old(assigns)| && queue == old(queue) + [cr]
      ensures old(elimHeap) <= elimHeap
      ensures if |old(ca)[cr].lits| == 2 then !Problem(ca, cr) && occurs == old(occurs)
              else ca == Strengthened(old(ca), cr, l) && l.v < |occurs| == |old(occurs)|
                   && occurs == old(occurs)[l.v := Erased(old(occurs)[l.v], cr)]
    {
      hide Shape, Models;
      FitVar(S(), cr, l, leaving);
      QueueKeeps(S(), queue + [cr], leaving);
      queue := queue + [cr];
      if |ca[cr].lits| == 2 {
        b := StrengthenToUnit(cr, l, leaving);
      } else {
        StrengthenLong(cr, l, leaving);
        b := true;
      }
    }

    // ---------------------------------------------------------------- backward subsumption

    /** Mark the queued clauses. */
    method MarkQueue()
      requires QueueFits(ca, queue)
      modifies this`ca
      ensures Marked(old(ca), ca, queue)
    {
      var i := 0;
      while i < |queue|
        invariant 0 <= i <= |queue| && Marked(old(ca), ca, queue[..i])
      {
        assert queue[i] in queue;
        MarkedStep(old(ca), ca, queue[..i], queue[i]);
        assert queue[..i + 1] == queue[..i] + [queue[i]];
        if ca[queue[i]].mark == 0 {
          ca := ca[queue[i] := ca[queue[i]].(mark := 2)];
        }
        i := i + 1;
      }
      assert queue[..|queue|] == queue;
    }

    method UnmarkQueue(ghost ca0: Pool)
      requires Marked(ca0, ca, queue) && QueueFits(ca, queue) && forall x :: 0 <= x < |ca0| ==> ca0[x].mark <= 1
      modifies this`ca
      ensures ca == ca0
    {
      var i := 0;
      while i < |queue|
        invariant 0 <= i <= |queue| && |ca| == |ca0|
        invariant forall x :: 0 <= x < |ca| ==>
          ca[x] == if ca0[x].mark == 0 && x in queue && x !in queue[..i] then ca0[x].(mark := 2) else ca0[x]
      {
        assert queue[..i + 1] == queue[..i] + [queue[i]];
        assert queue[i] in queue;
        if ca[queue[i]].mark == 2 {
          ca := ca[queue[i] := ca[queue[i]].(mark := 0)];
        }
        i := i + 1;
      }
      assert queue[..|queue|] == queue;
    }

    /** Queue the unmarked clauses of one list. */
    method GatherList(v: Var, ghost ca0: Pool)
      requires v < |occurs| && Marked(ca0, ca, queue)
      requires forall cr :: cr in occurs[v] ==> Problem(ca0, cr) && ca0[cr].mark == 0
      modifies this`ca, this`queue
      ensures Marked(ca0, ca, queue) && old(queue) <= queue
      ensures forall cr :: cr in queue ==> cr in old(queue) || 0 < cr < |ca0|
      ensures forall cr :: cr in occurs[v] ==> cr in queue
    {
      var cs, j := occurs[v], 0;
      while j < |cs|
        invariant 0 <= j <= |cs| && Marked(ca0, ca, queue) && old(queue) <= queue
        invariant forall cr :: cr in queue ==> cr in old(queue) || 0 < cr < |ca0|
        invariant forall cr :: cr in cs[..j] ==> cr in queue
      {
        assert cs[..j + 1] == cs[..j] + [cs[j]];
        assert Problem(ca0, cs[j]);
        if ca[cs[j]].mark == 0 {
          MarkedStep(ca0, ca, queue, cs[j]);
          queue := queue + [cs[j]];
          ca := ca[cs[j] := ca[cs[j]].(mark := 2)];
        }
        j := j + 1;
      }
      assert cs[..|cs|] == cs;
    }

    /** Queue every clause of a touched variable. */
    method GatherTouchedClauses()
      requires Shape(S(), {}) && Simplifying()
      modifies this`queue, this`ca, this`occurs, this`dirty, this`touched, this`nTouched
      ensures Shape(S(), {}) && Simplifying() && ca == old(ca) && nTouched == 0 && old(queue) <= queue
      ensures old(nTouched) > 0 ==>
                forall cr, p :: Problem(ca, cr) && p in ca[cr].lits && p.v < |assigns| && old(touched)[p.v] ==>
                    cr in queue
      ensures old(nTouched) > 0 ==> forall v :: 0 <= v < |touched| ==> !touched[v]
    {
      if nTouched == 0 {
        return;
      }
      ghost var s := S();
      MarkQueue();
      GatherLists(s);
      UnmarkQueue(s.ca);
      nTouched := 0;
    }

    method GatherLists(ghost s: Simp)
      requires Simplifying() && Marked(s.ca, ca, queue)
      requires s == S().(ca := s.ca) && Shape(s, {}) && forall x :: 0 <= x < |s.ca| ==> s.ca[x].mark <= 1
      modifies this`queue, this`ca, this`occurs, this`dirty, this`touched
      ensures Simplifying() && Marked(s.ca, ca, queue) && old(queue) <= queue && Shape(S().(ca := s.ca), {})
      ensures forall cr, p :: Problem(s.ca, cr) && p in s.ca[cr].lits && p.v < |assigns| && old(touched)[p.v] ==>
                cr in queue
      ensures forall v :: 0 <= v < |touched| ==> !touched[v]
    {
      hide ClausesFit, TrailFits, OccursSound, OccursComplete, Distinct, TablesFit, Marked;
      MarkedOccurs(s.ca, ca, queue, occurs, dirty);
      var i := 0;
      while i < |touched|
        invariant 0 <= i <= |touched| && Simplifying() && Marked(s.ca, ca, queue) && old(queue) <= queue
        invariant forall v :: 0 <= v < |touched| ==> touched[v] == (v >= i && old(touched)[v])
        invariant OccursSound(ca, occurs, dirty) && OccursComplete(ca, occurs)
        invariant forall cr :: cr in queue ==> cr in s.queue || 0 < cr < |s.ca|
        invariant forall cr, p :: Problem(s.ca, cr) && p in s.ca[cr].lits && p.v < i && old(touched)[p.v] ==>
                    cr in queue
      {
        if touched[i] {
          Lookup(i);
          MarkedOccurs(s.ca, ca, queue, occurs, dirty);
          ListMembers(s.ca, ca, queue, occurs, dirty, i);
          GatherList(i, s.ca);
          MarkedOccurs(s.ca, ca, queue, occurs, dirty);
          touched := touched[i := false];
        }
        i := i + 1;
      }
      MarkedOccurs(s.ca, ca, queue, occurs, dirty);
    }

    /** The variable of the clause with the shortest list. */
    method BestVar(cr: CRef) returns (best: Var)
      requires 0 <= cr < |ca| && |ca[cr].lits| > 0 && forall p :: p in ca[cr].lits ==> p.v < |occurs|
      ensures best in VarsOf(ca[cr].lits) && best < |occurs|
      ensures forall p :: p in ca[cr].lits ==> |occurs[best]| <= |occurs[p.v]|
    {
      var c := ca[cr].lits;
      assert c[0] in c;
      best := c[0].v;
      var i := 1;
      while i < |c|
        invariant 1 <= i <= |c| && best in VarsOf(c) && best < |occurs|
        invariant forall k :: 0 <= k < i ==> |occurs[best]| <= |occurs[c[k].v]|
      {
        assert c[i] in c;
        if |occurs[c[i].v]| < |occurs[best]| {
          best := c[i].v;
        }
        i := i + 1;
      }
    }

    /** Compare one clause with another: delete it, shorten it, or leave it. */
    method CheckCandidate(cr: CRef, d: CRef) returns (b: bool, r: Subsumption)
      requires Shape(S(), {}) && Simplifying() && Comparable(S(), cr) && Problem(ca, d) && d != cr
      modifies this`queue, this`ca, this`dirty, this`dirties, this`elimHeap, this`occurs, this`assigns, this`trail
      ensures Simplifying() && (b ==> Shape(S(), {}) && SameModels(old(S()), S()) && Comparable(S(), cr))
      ensures !b ==> NoModel(old(S()))
      ensures old(trail) <= trail && |assigns| == |old(assigns)|
      ensures if r.Unrelated? then Weight(ca) == old(Weight(ca)) && unchanged(this) else Weight(ca) < old(Weight(ca))
      ensures r.Subsumed? ==> occurs == old(occurs) && trail == old(trail) && queue == old(queue)
      ensures r.ResolveOn? ==>
                occurs == old(occurs) ||
                (r.p.v < |occurs| && occurs == old(occurs)[r.p.v := Erased(old(occurs)[r.p.v], d)])
      ensures b ==> Others(old(ca), ca, d) && Settled(ca, cr, d, -1)
      ensures old(queue) <= queue && (b ==> Shrunk(old(ca), ca, queue))
      ensures old(elimHeap) <= elimHeap
    {
      hide Shape, Models, Relates, SameModels, NoModel, Others, Weight, Shrunk, Shorter;
      ComparableFit(S(), d, {});
      r := Subsumes(ca[cr].lits, ca[cr].abs, ca[d].lits, ca[d].abs);
      ghost var s := S();
      b := true;
      SameModelsReflexive(s);
      OthersSelf(ca, d);
      ShrunkReflexive(ca, queue);
      if r.Subsumed? {
        RemoveClause(d, {});
        SubsumedModels(s, S(), cr, d);
        DeletedOthers(s.ca, d);
        ShrunkOne(s.ca, ca, d, queue);
        ComparableOthers(s, S(), cr, d, {});
      } else if r.ResolveOn? {
        ResolvedAway(s, cr, d, r.p);
        b := StrengthenClause(d, Neg(r.p), {});
        if b {
          ComparableOthers(s, S(), cr, d, {});
          ResolvedUnrelated(s.ca[cr].lits, s.ca[d].lits, r.p);
          ErasedShorter(s.ca[d].lits, Neg(r.p));
          ShrunkOne(s.ca, ca, d, queue);
        }
      }
    }

    /** Compare a clause with every clause in the list of one of its variables; afterwards none is left to act on. */
    method ScanCandidates(cr: CRef, best: Var) returns (b: bool)
      requires Shape(S(), {}) && Simplifying() && Comparable(S(), cr) && best < |assigns|
      modifies this`queue, this`ca, this`dirty, this`dirties, this`elimHeap, this`occurs, this`assigns, this`trail
      ensures Simplifying() && (b ==> Shape(S(), {}) && SameModels(old(S()), S()) && Comparable(S(), cr))
      ensures !b ==> NoModel(old(S()))
      ensures old(trail) <= trail && |assigns| == |old(assigns)| && Weight(ca) <= old(Weight(ca))
      ensures Weight(ca) == old(Weight(ca)) ==> trail == old(trail) && queue == old(queue)
      ensures b && old(ca[cr].mark) == 0 ==> SettledTo(ca, cr, occurs[best], |occurs[best]|, subsumptionLim)
      ensures b ==> SameLits(old(ca)[cr].lits, ca[cr].lits)
      ensures old(queue) <= queue && (b ==> Shrunk(old(ca), ca, queue))
      ensures old(elimHeap) <= elimHeap
    {
      hide Shape, Comparable, SameModels, NoModel, Weight, SettledTo, Settled, SameLits, Others, TablesFit, Shrunk;
      var j: int := 0;
      b := true;
      SameModelsReflexive(S());
      ComparableRange(S(), cr);
      SettledNothing(ca, cr, occurs[best], subsumptionLim);
      SameLitsReflexive(ca[cr].lits);
      ShrunkReflexive(ca, queue);
      while j < |occurs[best]|
        invariant 0 <= j && Simplifying() && Shape(S(), {}) && SameModels(old(S()), S()) && Comparable(S(), cr)
        invariant old(trail) <= trail && |assigns| == |old(assigns)| && Weight(ca) <= old(Weight(ca))
        invariant Weight(ca) == old(Weight(ca)) ==> trail == old(trail) && queue == old(queue)
        invariant 0 <= cr < |old(ca)| && 0 <= cr < |ca| && ca[cr].mark == old(ca[cr].mark)
        invariant SameLits(old(ca)[cr].lits, ca[cr].lits) && j <= |occurs[best]|
        invariant SettledTo(ca, cr, occurs[best], j, subsumptionLim)
        invariant old(elimHeap) <= elimHeap && old(queue) <= queue && Shrunk(old(ca), ca, queue)
        decreases Weight(ca), |occurs[best]| - j
      {
        if ca[cr].mark != 0 {
          break;
        }
        var d := occurs[best][j];
        ListedProblem(S(), best, d, {});
        if ca[d].mark == 0 && d != cr && (subsumptionLim == -1 || |ca[d].lits| < subsumptionLim) {
          ghost var s := S();
          var r;
          b, r := CheckCandidate(cr, d);
          if !b {
            NoModelSame(old(S()), s);
            return;
          }
          SameModelsTransitive(old(S()), s, S());
          SettledStep(s, S(), cr, best, j, subsumptionLim, r, {});
          ScannedKept(s, S(), cr, d, old(ca)[cr].lits);
          ShrunkTransitive(old(ca), s.ca, ca, s.queue, queue);
          if r.ResolveOn? && r.p.v == best {
            j := j - 1;
          }
        } else {
          SettledSkip(ca, cr, occurs[best], j, subsumptionLim);
        }
        j := j + 1;
      }
    }

    /**
     * Backward subsumption and self-subsuming resolution, until the queue and the new facts are used up. Without an
     * interrupt no clause that was queued or has been shortened is left with anything to subsume or to shorten, and no
     * clause mentions the variable of a new fact; the limit on the size of candidates is on what they were at first.
     */
    method BackwardSubsumptionCheck() returns (b: bool)
      requires Shape(S(), {}) && Simplifying() && bwdsubAssigns <= |trail|
      modifies this`queue, this`ca, this`dirty, this`dirties, this`elimHeap, this`occurs, this`assigns, this`trail,
               this`bwdsubAssigns, this`asynchInterrupt
      ensures Simplifying() && (old(asynchInterrupt) ==> asynchInterrupt)
      ensures b ==> Shape(S(), {}) && SameModels(old(S()), S()) && queue == [] && bwdsubAssigns == |trail|
      ensures b ==> NoneGrown(old(ca), ca)
      ensures b && !asynchInterrupt ==>
                && Exhausted(old(ca), old(queue), ca, subsumptionLim)
                && old(bwdsubAssigns) <= |trail|
                && FactsGone(old(ca), ca, trail[old(bwdsubAssigns)..], subsumptionLim)
      ensures !b ==> NoModel(old(S()))
      ensures |assigns| == |old(assigns)| && old(trail) <= trail
      ensures old(elimHeap) <= elimHeap
    {
      hide Shape, SameModels, NoModel, Weight, Simplifying, Tracked, FactsGone, Exhausted, NoneGrown;
      b := true;
      SameModelsReflexive(S());
      ghost var ca0, q0, t0 := ca, queue, bwdsubAssigns;
      TrackStart(ca0, q0, subsumptionLim);
      NoFacts(ca0, ca, subsumptionLim);
      assert trail[t0..t0] == [];
      while |queue| > 0 || bwdsubAssigns < |trail|
        invariant Simplifying() && t0 <= bwdsubAssigns <= |trail| && (old(asynchInterrupt) ==> asynchInterrupt)
        invariant Shape(S(), {}) && SameModels(old(S()), S()) && |assigns| == |old(assigns)| && old(trail) <= trail
        invariant old(elimHeap) <= elimHeap && Tracked(ca0, q0, ca, queue, subsumptionLim)
        invariant FactsGone(ca0, ca, trail[t0..bwdsubAssigns], subsumptionLim)
        decreases Weight(ca), |trail| - bwdsubAssigns, |queue|
      {
        ghost var s := S();
        PollInterrupt();
        if asynchInterrupt {
          TrackGrown(ca0, q0, ca, queue, subsumptionLim);
          DropQueue();
          SameModelsTransitive(old(S()), s, S());
          return;
        }
        b := SubsumeNext(ca0, q0, t0);
        if !b {
          NoModelSame(old(S()), s);
          return;
        }
        SameModelsTransitive(old(S()), s, S());
      }
      TrackGrown(ca0, q0, ca, queue, subsumptionLim);
      TrackEnd(ca0, q0, ca, subsumptionLim);
      assert trail[t0..bwdsubAssigns] == trail[t0..];
    }

    /** Deal with the first clause of the queue, or with the next new fact if the queue is empty. */
    method SubsumeNext(ghost ca0: Pool, ghost q0: seq<CRef>, ghost t0: nat) returns (b: bool)
      requires Shape(S(), {}) && Simplifying() && t0 <= bwdsubAssigns <= |trail|
      requires |queue| > 0 || bwdsubAssigns < |trail|
      requires Tracked(ca0, q0, ca, queue, subsumptionLim)
      requires FactsGone(ca0, ca, trail[t0..bwdsubAssigns], subsumptionLim)
      modifies this`queue, this`ca, this`dirty, this`dirties, this`elimHeap, this`occurs, this`assigns, this`trail,
               this`bwdsubAssigns
      ensures Simplifying() && (b ==> Shape(S(), {}) && SameModels(old(S()), S()))
      ensures !b ==> NoModel(old(S()))
      ensures |assigns| == |old(assigns)| && old(trail) <= trail && old(elimHeap) <= elimHeap
      ensures t0 <= bwdsubAssigns <= |trail|
      ensures b ==> Tracked(ca0, q0, ca, queue, subsumptionLim)
      ensures b ==> FactsGone(ca0, ca, trail[t0..bwdsubAssigns], subsumptionLim)
      ensures Weight(ca) <= old(Weight(ca))
      ensures Weight(ca) == old(Weight(ca)) ==>
                && trail == old(trail) && bwdsubAssigns >= old(bwdsubAssigns)
                && (bwdsubAssigns == old(bwdsubAssigns) ==> |queue| < |old(queue)|)
    {
      hide Shape, SameModels, NoModel, Weight, Simplifying, Tracked, FactsGone, Shrunk, Settled, SameLits;
      ghost var s := S();
      SameModelsReflexive(s);
      ghost var facts, fact := trail[t0..bwdsubAssigns], [];
      if |queue| == 0 {
        QueueFact();
        TrackFact(ca0, q0, s.ca, ca, facts, subsumptionLim);
        fact := ca[TMP].lits;
      }
      ghost var t := S();
      b := CheckNext();
      if !b {
        NoModelSame(s, t);
        return;
      }
      SameModelsTransitive(s, t, S());
      MarkBound(t, t.queue[0], {});
      TrackNext(ca0, q0, t, S(), facts, fact, subsumptionLim);
      assert trail[t0..bwdsubAssigns] == facts + fact;
    }

    /** An interrupt leaves nothing queued. */
    method DropQueue()
      requires Shape(S(), {})
      modifies this`queue, this`bwdsubAssigns
      ensures Shape(S(), {}) && SameModels(old(S()), S()) && queue == [] && bwdsubAssigns == |trail|
    {
      hide Shape;
      QueueKeeps(S(), [], {});
      queue, bwdsubAssigns := [], |trail|;
    }

    /** The user may interrupt at any time. */
    method PollInterrupt()
      modifies this`asynchInterrupt
      ensures old(asynchInterrupt) ==> asynchInterrupt
    {
      var now: bool := *;
      asynchInterrupt := asynchInterrupt || now;
    }

    /** Put the next level-0 fact into the scratch unit and queue that. */
    method QueueFact()
      requires Shape(S(), {}) && Simplifying() && queue == [] && bwdsubAssigns < |trail|
      modifies this`ca, this`queue, this`bwdsubAssigns
      ensures Shape(S(), {}) && Simplifying() && SameModels(old(S()), S())
      ensures queue == [TMP] && bwdsubAssigns == old(bwdsubAssigns) + 1 && Weight(ca) == old(Weight(ca))
      ensures |old(ca)| > 0 && ca == old(ca)[TMP := ca[TMP]] && ca[TMP].lits == [old(trail[bwdsubAssigns])]
      ensures ca[TMP].mark == 0 && trail == old(trail)
    {
      hide ClausesFit, OccursSound, OccursComplete, TrailFits;
      var l := trail[bwdsubAssigns];
      bwdsubAssigns := bwdsubAssigns + 1;
      ghost var s := S();
      ScratchKeeps(s, l);
      WeightUpdate(ca, TMP, SClause([l], 0, Abstraction([l])));
      ca := ca[TMP := SClause([l], 0, Abstraction([l]))];
      queue := [TMP];
    }

    /**
     * Take the first clause off the queue and compare it with its neighbours. Unless it was deleted, it then
     * neither subsumes nor shortens any other clause within the size limit.
     */
    method CheckNext() returns (b: bool)
      requires Shape(S(), {}) && Simplifying() && |queue| > 0
      modifies this`queue, this`ca, this`dirty, this`dirties, this`elimHeap, this`occurs, this`assigns, this`trail
      ensures Simplifying() && (b ==> Shape(S(), {}) && SameModels(old(S()), S()))
      ensures !b ==> NoModel(old(S()))
      ensures old(trail) <= trail && |assigns| == |old(assigns)| && Weight(ca) <= old(Weight(ca))
      ensures Weight(ca) == old(Weight(ca)) ==> trail == old(trail) && queue == old(queue[1..])
      ensures old(queue[1..]) <= queue && (b ==> Shrunk(old(ca), ca, queue))
      ensures 0 <= old(queue[0]) < |old(ca)|
      ensures b && old(ca[queue[0]].mark) == 0 ==>
                && SameLits(old(ca[queue[0]].lits), ca[old(queue[0])].lits)
                && forall d :: Problem(ca, d) ==> Settled(ca, old(queue[0]), d, subsumptionLim)
      ensures old(elimHeap) <= elimHeap
    {
      var cr := queue[0];
      hide ClausesFit, OccursSound, OccursComplete, TrailFits, SameModels, NoModel, Weight, Models, Comparable, Settled,
           SettledTo, SameLits, TablesFit, Shrunk;
      QueueHead(S());
      ghost var s := S();
      QueueKeeps(S(), queue[1..], {});
      queue := queue[1..];
      ShrunkReflexive(ca, queue);
      if ca[cr].mark != 0 {
        return true;
      }
      ComparableFit(S(), cr, {});
      var best := BestVar(cr);
      Lookup(best);
      ghost var t := S();
      SameClauses(s, t);
      b := ScanCandidates(cr, best);
      if b {
        SameModelsTransitive(s, t, S());
        ComparableRange(S(), cr);
        SameVars(s.ca[cr].lits, ca[cr].lits, best);
        SettledAll(S(), cr, best, subsumptionLim, {});
      } else {
        NoModelSame(s, t);
      }
    }

    // ---------------------------------------------------------------- adding clauses

    ghost predicate Sizes()
      reads this`useSimplification, this`frozen, this`touched, this`occurs, this`dirty, this`eliminated,
            this`decision, this`assigns, this`dirties, this`elimHeap, this`queue
    {
      && |decision| == |eliminated| == |frozen| == |assigns|
      && if useSimplification then Simplifying() else occurs == [] && dirty == [] && queue == []
    }

    /** What adding the clause ps to the state s must achieve. */
    ghost predicate Added(s: Simp, ps: seq<Lit>)
      reads this
    {
      && Grown(s, S()) && Secured(S(), ps)
      && forall a: Model :: Models(a, s) && SatClause(a, ps) ==> Models(a, S())
    }

    /** No assignment satisfies the state s and the clause ps. */
    static ghost predicate Refuted(s: Simp, ps: seq<Lit>) {
      forall a: Model :: Models(a, s) ==> !SatClause(a, ps)
    }

    /** A clause that shrinks to one literal. */
    method AddUnit(ps: seq<Lit>, p: Lit, ghost leaving: set<Var>) returns (b: bool)
      requires Shape(S(), leaving) && p in ps && IsUndef(assigns, p)
      requires forall x :: x in ps ==> x in [p] || IsFalse(assigns, x)
      modifies this`ca, this`assigns, this`trail
      ensures b ==> Shape(S(), leaving) && Added(old(S()), ps)
      ensures !b ==> Refuted(old(S()), ps)
      ensures |assigns| == |old(assigns)| && |ca| == |old(ca)| && old(trail) <= trail
    {
      hide Models, Secured, SameLits, Grown, OccursSound, OccursComplete, ClausesFit, TrailFits, Shuffled;
      ghost var s := S();
      KeptHolds(s, ps, [p]);
      WithFactModels(s, p);
      UncheckedEnqueue(p, leaving);
      ghost var t := S();
      var conflict := Propagate(leaving);
      PoolSize(s.ca, ca);
      ShuffledGrown(s, S());
      assert trail[|t.trail| - 1] == p;
      SecuredByFact(S(), ps, p);
      forall a: Model | Models(a, s) && SatClause(a, ps) ensures Models(a, S()) {
        OneLiteral(a, p);
      }
      b := !conflict;
    }

    /** Append the new clause to the list of each of its variables. */
    method ListClause(c: seq<Lit>, cr: CRef)
      requires Simplifying() && NoPair(c) && forall p :: p in c ==> p.v < |assigns|
      modifies this`occurs, this`touched, this`nTouched
      ensures Simplifying() && Listed(old(occurs), occurs, c, cr)
      ensures nTouched == old(nTouched) + |c| && forall p :: p in c ==> p.v < |touched| && touched[p.v]
    {
      var i := 0;
      while i < |c|
        invariant 0 <= i <= |c| && Simplifying() && Listed(old(occurs), occurs, c[..i], cr)
        invariant nTouched == old(nTouched) + i && forall k :: 0 <= k < i ==> touched[c[k].v]
      {
        var v := c[i].v;
        assert c[i] in c;
        assert VarsOf(c[..i + 1]) == VarsOf(c[..i]) + {v} by {
          assert c[..i + 1] == c[..i] + [c[i]];
        }
        assert v !in VarsOf(c[..i]);
        occurs := occurs[v := occurs[v] + [cr]];
        touched := touched[v := true];
        nTouched := nTouched + 1;
        i := i + 1;
      }
      assert c[..|c|] == c;
    }

    /** Every clause from index n on is queued, with its variables touched. */
    ghost predicate Announced(n: nat, nTouched0: nat)
      reads this`ca, this`queue, this`touched, this`nTouched
    {
      forall c :: n <= c < |ca| ==>
        c in queue && nTouched > nTouched0 && forall p :: p in ca[c].lits ==> p.v < |touched| && touched[p.v]
    }

    /** A clause that keeps at least two literals is stored, queued and listed. */
    method StoreClause(ps: seq<Lit>, kept: seq<Lit>, ghost leaving: set<Var>)
      requires Shape(S(), leaving) && Sizes() && |kept| >= 2 && NoPair(kept)
      requires forall x :: x in kept ==> x in ps && x.v < |assigns| && !eliminated[x.v]
      requires forall x :: x in ps ==> x in kept || IsFalse(assigns, x)
      modifies this`ca, this`occurs, this`touched, this`nTouched, this`queue
      ensures Sizes() && Shape(S(), leaving) && Added(old(S()), ps) && |ca| == |old(ca)| + 1
      ensures useSimplification ==> Announced(|old(ca)|, old(nTouched))
      ensures old(queue) <= queue
      ensures |occurs| == |old(occurs)|
      ensures forall x :: 0 <= x < |occurs| && x !in VarsOf(ps) ==> occurs[x] == old(occurs)[x]
    {
      hide OccursSound, OccursComplete, ClausesFit, TrailFits, Models, Secured, Simplifying;
      ghost var s := S();
      var cr := |ca|;
      KeptHolds(s, ps, kept);
      ca := ca + [SClause(kept, 0, Abstraction(kept))];
      if useSimplification {
        queue := queue + [cr];
        ListClause(kept, cr);
      }
      KeptVars(kept, ps);
      AllocKeeps(s, kept, occurs, queue, leaving);
      AllocModels(s, S(), kept);
      SecuredByClause(S(), ps, cr);
    }

    twostate lemma SizesAssigned()
      requires old(Sizes()) && |assigns| == |old(assigns)|
      requires unchanged(`useSimplification, `frozen, `touched, `occurs, `dirty, `eliminated)
      requires unchanged(`decision, `dirties, `elimHeap, `queue)
      ensures Sizes()
    {
    }

    lemma SizesOn()
      requires Simplifying()
      ensures Sizes()
    {
    }

    twostate lemma SizesBack()
      requires old(Simplifying()) && unchanged(`useSimplification) && Sizes()
      ensures Simplifying()
    {
    }

    static lemma RefutedByFacts(s: Simp, ps: seq<Lit>, leaving: set<Var>)
      requires Shape(s, leaving) && forall x :: x in ps ==> IsFalse(s.assigns, x)
      ensures Refuted(s, ps)
    {
      AllFalseFails(s, ps);
    }

    /** A clause that holds anyway needs no adding. */
    lemma SecuredTrivial(ps: seq<Lit>, leaving: set<Var>)
      requires Trivial(assigns, ps) && Shape(S(), leaving)
      ensures Secured(S(), ps)
    {
      hide ClausesFit, OccursSound, OccursComplete, ScratchFits, QueueFits, Secured;
      var x :| x in ps && (IsTrue(assigns, x) || Neg(x) in ps);
      if IsTrue(assigns, x) {
        assert x == Lit(x.v, assigns[x.v] == False);
        SecuredByFact(S(), ps, x);
      } else {
        SecuredTautology(S(), ps, x);
      }
    }

    /** Normalise a clause and add it to the problem; false when the problem becomes unsatisfiable. */
    method AddClauseLits(ps: seq<Lit>, ghost leaving: set<Var>) returns (b: bool)
      requires ok && Shape(S(), leaving) && Sizes() && forall p :: p in ps ==> p.v < |assigns| && !eliminated[p.v]
      modifies this`ok, this`ca, this`assigns, this`trail, this`occurs, this`touched, this`nTouched,
               this`queue
      ensures b == ok && Sizes() && |assigns| == |old(assigns)| && old(trail) <= trail
      ensures b ==> Shape(S(), leaving) && Added(old(S()), ps)
      ensures !b ==> Refuted(old(S()), ps)
      ensures useSimplification ==> Announced(|old(ca)|, old(nTouched))
      ensures |old(ca)| <= |ca| && old(queue) <= queue
      ensures |ca| <= |old(ca)| + 1 && |occurs| == |old(occurs)|
      ensures forall x :: 0 <= x < |occurs| && x !in VarsOf(ps) ==> occurs[x] == old(occurs)[x]
    {
      var skip, kept := NormaliseLits(assigns, ps);
      hide Shape, Models, Secured, Simplifying, Trivial;
      if skip {
        SecuredTrivial(ps, leaving);
        GrownReflexive(S());
        return true;
      }
      if |kept| == 0 {
        RefutedByFacts(S(), ps, leaving);
        ok := false;
      } else if |kept| == 1 {
        assert kept == [kept[0]] && kept[0] in kept;
        ok := AddUnit(ps, kept[0], leaving);
        SizesAssigned();
      } else {
        StoreClause(ps, kept, leaving);
      }
      b := ok;
    }

    // ---------------------------------------------------------------- variable elimination

    /** Everything the preprocessor keeps between its steps. */
    ghost predicate Working()
      reads this
    {
      && Simplifying() && Shape(S(), {}) && bwdsubAssigns <= |trail|
      && Reconstructs(original, recs, S()) && Recorded(recs, elimclauses, eliminated)
    }

    /** Split the remaining clauses on v by sign. */
    method SplitOccurrences(v: Var) returns (pos: seq<CRef>, neg: seq<CRef>)
      requires Shape(S(), {}) && Simplifying() && v < |assigns|
      requires forall cr :: cr in occurs[v] ==> Problem(ca, cr)
      ensures Sides(S(), v, pos, neg)
      ensures |pos| + |neg| == |occurs[v]| && forall cr :: cr in pos || cr in neg ==> cr in occurs[v]
    {
      pos, neg := [], [];
      var i := 0;
      while i < |occurs[v]|
        invariant 0 <= i <= |occurs[v]| && |pos| + |neg| == i
        invariant forall cr :: cr in pos ==> Problem(ca, cr) && Lit(v, false) in ca[cr].lits && cr in occurs[v]
        invariant forall cr :: cr in neg ==> Problem(ca, cr) && Lit(v, true) in ca[cr].lits && cr in occurs[v]
        invariant forall k :: 0 <= k < i ==> occurs[v][k] in pos || occurs[v][k] in neg
      {
        var cr := occurs[v][i];
        assert OccursOk(ca, v, cr, dirty[v]);
        if Lit(v, false) in ca[cr].lits {
          pos := pos + [cr];
        } else {
          ghost var p :| p in ca[cr].lits && p.v == v;
          assert p == Lit(v, true);
          neg := neg + [cr];
        }
        i := i + 1;
      }
    }

    /** Would eliminating v add few enough clauses, each short enough? */
    method WithinLimits(v: Var, pos: seq<CRef>, neg: seq<CRef>) returns (fits: bool)
      requires Shape(S(), {}) && Simplifying() && v < |assigns| && Sides(S(), v, pos, neg)
      requires |pos| + |neg| == |occurs[v]|
      ensures fits <==> WorthIt(ca, clauseLim, grow, v, pos, neg)
    {
      hide Shape, NewClauses, ShortEnough, Sides, Simplifying, RowCount;
      var cnt, i: nat := 0, 0;
      TableSize();
      while i < |pos|
        invariant i <= |pos| && cnt == PairCount(ca, pos, neg, v, i)
        invariant cnt == 0 || cnt <= |occurs[v]| + grow
        invariant forall k, j :: 0 <= k < i && 0 <= j < |neg| ==> ShortEnough(ca, clauseLim, pos[k], neg[j], v)
      {
        assert pos[i] in pos;
        PairGrows(ca, pos, neg, v, i + 1, |pos|);
        var fit, at;
        fit, cnt, at := RowFits(v, pos[i], pos, neg, cnt);
        if !fit {
          return false;
        }
        i := i + 1;
      }
      fits := true;
    }

    /** Count one pair; the answer is no when the count or the size of its resolvent is too large. */
    method PairFits(v: Var, p: CRef, n: CRef, cnt: nat) returns (fits: bool, cnt': nat)
      requires Problem(ca, p) && Problem(ca, n) && NoPair(ca[p].lits) && NoPair(ca[n].lits) && v < |occurs|
      requires v in VarsOf(ca[p].lits) && v in VarsOf(ca[n].lits)
      ensures cnt' == cnt + NewClauses(ca, p, n, v)
      ensures fits ==> ShortEnough(ca, clauseLim, p, n, v) && (cnt' == cnt || cnt' <= |occurs[v]| + grow)
      ensures !fits ==> cnt' > cnt && (cnt' > |occurs[v]| + grow || !ShortEnough(ca, clauseLim, p, n, v))
    {
      hide Clash, NoPair, VarsOf;
      var b, size := MergeSize(ca[p].lits, ca[n].lits, v);
      cnt' := if b then cnt + 1 else cnt;
      fits := !(b && (cnt' > |occurs[v]| + grow || (clauseLim != -1 && size > clauseLim)));
    }

    lemma TableSize()
      requires Simplifying()
      ensures |occurs| == |assigns|
    {
    }

    method RowFits(v: Var, p: CRef, pos: seq<CRef>, neg: seq<CRef>, cnt0: nat)
      returns (fits: bool, cnt: nat, at: nat)
      requires Shape(S(), {}) && Simplifying() && v < |assigns| && Sides(S(), v, pos, neg) && p in pos
      requires cnt0 == 0 || cnt0 <= |occurs[v]| + grow
      ensures fits ==> cnt == cnt0 + RowCount(ca, p, neg, v, |neg|) && (cnt == 0 || cnt <= |occurs[v]| + grow)
      ensures fits ==> forall j :: 0 <= j < |neg| ==> ShortEnough(ca, clauseLim, p, neg[j], v)
      ensures !fits ==> at < |neg|
      ensures !fits ==> 0 < cnt <= cnt0 + RowCount(ca, p, neg, v, |neg|)
      ensures !fits ==> cnt > |occurs[v]| + grow || !ShortEnough(ca, clauseLim, p, neg[at], v)
    {
      hide Shape, NewClauses, ShortEnough, Sides, Simplifying, NoPair, VarsOf;
      TableSize();
      cnt, at := cnt0, 0;
      while at < |neg|
        invariant at <= |neg| && cnt == cnt0 + RowCount(ca, p, neg, v, at)
        invariant cnt == 0 || cnt <= |occurs[v]| + grow
        invariant forall k :: 0 <= k < at ==> ShortEnough(ca, clauseLim, p, neg[k], v)
      {
        assert neg[at] in neg;
        PairShape(S(), v, pos, neg, p, neg[at]);
        fits, cnt := PairFits(v, p, neg[at], cnt);
        if !fits {
          RowGrows(ca, p, neg, v, at + 1, |neg|);
          return;
        }
        at := at + 1;
      }
      fits := true;
    }

    /** Store the default value of an eliminated variable. */
    method MkElimUnit(x: Lit)
      modifies this`elimclauses
      ensures elimclauses == old(elimclauses) + [ToInt(x)] + [1]
    {
      elimclauses := elimclauses + [ToInt(x)];
      elimclauses := elimclauses + [1];
    }

    /** Store a clause with the literal on v swapped to the front and the length at the end. */
    method MkElimClause(v: Var, c: seq<Lit>) returns (ghost r: Record)
      requires v in VarsOf(c) && NoPair(c)
      modifies this`elimclauses
      ensures SameLits(r, c) && NoPair(r) && r != [] && r[0].v == v
      ensures elimclauses == old(elimclauses) + Codes(r) + [|r|]
    {
      var first := |elimclauses|;
      var vPos: int := -1;
      var i := 0;
      ghost var at := 0;
      while i < |c|
        invariant 0 <= i <= |c| && elimclauses == old(elimclauses) + Codes(c)[..i]
        invariant vPos == -1 ==> v !in VarsOf(c[..i])
        invariant vPos != -1 ==> 0 <= at < i && c[at].v == v && vPos == first + at
      {
        assert c[..i + 1] == c[..i] + [c[i]];
        elimclauses := elimclauses + [ToInt(c[i])];
        if c[i].v == v {
          vPos := i + first;
          at := i;
        }
        i := i + 1;
      }
      assert c[..|c|] == c && Codes(c)[..|c|] == Codes(c);
      var tmp := elimclauses[vPos];
      elimclauses := elimclauses[vPos := elimclauses[first]][first := tmp];
      r := Swap(c, 0, at);
      SwapSame(c, 0, at);
      SwapNoPair(c, 0, at);
      assert elimclauses == old(elimclauses) + Codes(r);
      elimclauses := elimclauses + [|c|];
    }

    /** Store one clause of a side. */
    method StoreOne(c: seq<Lit>, x: Lit, ghost all: seq<Record>) returns (ghost r: Record)
      requires Encode(all) == elimclauses && NoPair(c) && Neg(x) in c
      modifies this`elimclauses
      ensures SameLits(r, c) && NoPair(r) && r != [] && r[0] == Neg(x)
      ensures elimclauses == Encode(all + [r])
    {
      hide Encode, NoPair, Codes;
      assert Neg(x).v in VarsOf(c);
      r := MkElimClause(x.v, c);
      assert r[0] in r;
      OneLit(c, r[0], Neg(x));
      EncodePush(all, r);
    }

    /** Store all clauses of one side. */
    method StoreSide(side: seq<CRef>, x: Lit, ghost recs0: seq<Record>) returns (ghost new_: seq<Record>)
      requires Encode(recs0) == elimclauses
      requires forall cr :: cr in side ==> Problem(ca, cr) && Neg(x) in ca[cr].lits && NoPair(ca[cr].lits)
      modifies this`elimclauses
      ensures forall cr :: cr in side ==> 0 <= cr < |ca|
      ensures SideRecords(new_, LitsOf(ca, side), x)
      ensures elimclauses == Encode(recs0 + new_)
    {
      hide Encode, NoPair, SameLits;
      new_ := [];
      assert recs0 + new_ == recs0;
      var i := 0;
      while i < |side|
        invariant 0 <= i <= |side| && |new_| == i && elimclauses == Encode(recs0 + new_)
        invariant SideRecords(new_, LitsOf(ca, side)[..i], x)
      {
        assert side[i] in side;
        ghost var r := StoreOne(ca[side[i]].lits, x, recs0 + new_);
        assert recs0 + new_ + [r] == recs0 + (new_ + [r]);
        assert LitsOf(ca, side)[..i + 1] == LitsOf(ca, side)[..i] + [ca[side[i]].lits];
        new_ := new_ + [r];
        i := i + 1;
      }
      assert LitsOf(ca, side)[..|side|] == LitsOf(ca, side);
    }

    /** Store the smaller side of v and the default value that suits the other side. */
    method StoreGroup(v: Var, pos: seq<CRef>, neg: seq<CRef>) returns (ghost new_: seq<Record>, ghost x: Lit)
      requires Encode(recs) == elimclauses
      requires forall cr :: cr in pos ==> Problem(ca, cr) && Lit(v, false) in ca[cr].lits && NoPair(ca[cr].lits)
      requires forall cr :: cr in neg ==> Problem(ca, cr) && Lit(v, true) in ca[cr].lits && NoPair(ca[cr].lits)
      modifies this`elimclauses
      ensures forall cr :: cr in pos || cr in neg ==> 0 <= cr < |ca|
      ensures x.v == v && x.neg == (|pos| <= |neg|)
      ensures SideRecords(new_, LitsOf(ca, if x.neg then pos else neg), x)
      ensures elimclauses == Encode(recs + new_) + [ToInt(x)] + [1]
    {
      hide Encode, NoPair, SideRecords;
      if |pos| > |neg| {
        x := Lit(v, false);
        new_ := StoreSide(neg, Lit(v, false), recs);
        MkElimUnit(Lit(v, false));
      } else {
        x := Lit(v, true);
        new_ := StoreSide(pos, Lit(v, true), recs);
        MkElimUnit(Lit(v, true));
      }
    }

    /** Adding an entailed clause changes no models. */
    lemma AddedEntailed(s: Simp, c: seq<Lit>)
      requires Added(s, c) && forall a: Model :: Models(a, s) ==> SatClause(a, c)
      ensures SameModels(s, S())
    {
      forall a: Model ensures Models(a, s) <==> Models(a, S()) {
        if Models(a, S()) {
          GrownModels(s, S(), a);
        }
      }
    }

    static lemma RefutedEntailed(s: Simp, c: seq<Lit>)
      requires Refuted(s, c) && forall a: Model :: Models(a, s) ==> SatClause(a, c)
      ensures NoModel(s)
    {
    }

    /** Add the resolvent of one pair, unless it is a tautology. */
    method ProduceOne(v: Var, p: CRef, n: CRef, ghost s: Simp) returns (b: bool)
      requires ok && Simplifying() && Shape(S(), {v}) && Shape(s, {v}) && Grown(s, S()) && SameModels(s, S())
      requires Problem(s.ca, p) && Lit(v, false) in s.ca[p].lits && Problem(s.ca, n) && Lit(v, true) in s.ca[n].lits
      modifies this`ok, this`ca, this`assigns, this`trail, this`occurs, this`touched, this`nTouched,
               this`queue
      ensures b == ok && Simplifying() && |assigns| == |old(assigns)| && old(trail) <= trail
      ensures |old(ca)| <= |ca| && old(queue) <= queue && Queued(|old(ca)|, |ca|, queue)
      ensures |ca| <= |old(ca)| + NewClauses(s.ca, p, n, v)
      ensures |occurs| == |old(occurs)| && (v < |occurs| ==> occurs[v] == old(occurs)[v])
      ensures b ==> Shape(S(), {v}) && Grown(old(S()), S()) && Grown(s, S()) && SameModels(s, S())
      ensures b ==> Produced(s, S(), v, p, n)
      ensures !b ==> NoModel(s)
    {
      hide Simplifying, SameModels, NoModel, Models, Secured, OccursSound, OccursComplete, TrailFits, Resolvent, Clash;
      ghost var t := S();
      GrownPair(s, t, p, n, v);
      var nontrivial, c := Merge(ca[p].lits, ca[n].lits, v);
      b := true;
      GrownReflexive(t);
      if nontrivial {
        ResolventVars(t, v, p, n);
        ResolventEntailed(t, v, p, n, {v});
        SizesOn();
        b := AddClauseLits(c, {v});
        SizesBack();
        if b {
          GrownTransitive(s, t, S());
          AddedEntailed(t, c);
          SameModelsTransitive(s, t, S());
        } else {
          RefutedEntailed(t, c);
          NoModelSame(s, t);
        }
      }
      if b {
        ProducedNow(s, t, S(), v, p, n, c);
      }
    }

    method ProduceRow(v: Var, p: CRef, pos: seq<CRef>, neg: seq<CRef>, ghost s: Simp) returns (b: bool)
      requires ok && Simplifying() && Shape(S(), {v}) && Shape(s, {v}) && Grown(s, S()) && SameModels(s, S())
      requires Sides(s, v, pos, neg) && p in pos && v < |assigns|
      modifies this`ok, this`ca, this`assigns, this`trail, this`occurs, this`touched, this`nTouched,
               this`queue
      ensures b == ok && Simplifying() && |assigns| == |old(assigns)| && old(trail) <= trail
      ensures |old(ca)| <= |ca| && old(queue) <= queue && Queued(|old(ca)|, |ca|, queue)
      ensures |ca| <= |old(ca)| + RowCount(s.ca, p, neg, v, |neg|)
      ensures |occurs| == |old(occurs)| && (v < |occurs| ==> occurs[v] == old(occurs)[v])
      ensures b ==> Shape(S(), {v}) && Grown(old(S()), S()) && Grown(s, S()) && SameModels(s, S())
      ensures b ==> ProducedAll(s, S(), v, [p], neg)
      ensures !b ==> NoModel(s)
    {
      hide Simplifying, SameModels, NoModel, Shape, Grown, Produced, NewClauses, Queued;
      b := true;
      GrownReflexive(S());
      QueuedNone(|ca|, queue);
      var j := 0;
      while j < |neg|
        invariant 0 <= j <= |neg| && ok && Simplifying() && |assigns| == |old(assigns)| && old(trail) <= trail
        invariant |old(ca)| <= |ca| && old(queue) <= queue && Queued(|old(ca)|, |ca|, queue)
        invariant |ca| <= |old(ca)| + RowCount(s.ca, p, neg, v, j)
        invariant |occurs| == |old(occurs)| && (v < |occurs| ==> occurs[v] == old(occurs)[v])
        invariant Shape(S(), {v}) && Grown(old(S()), S()) && Grown(s, S()) && SameModels(s, S())
        invariant ProducedAll(s, S(), v, [p], neg[..j])
      {
        ghost var t := S();
        assert neg[j] in neg;
        assert RowCount(s.ca, p, neg, v, j + 1) == RowCount(s.ca, p, neg, v, j) + NewClauses(s.ca, p, neg[j], v);
        b := ProduceOne(v, p, neg[j], s);
        QueuedJoin(|old(ca)|, |t.ca|, |ca|, t.queue, queue);
        if !b {
          RowGrows(s.ca, p, neg, v, j + 1, |neg|);
          return;
        }
        GrownTransitive(old(S()), t, S());
        ProducedAllLater(s, t, S(), v, [p], neg[..j]);
        assert neg[..j + 1] == neg[..j] + [neg[j]];
        j := j + 1;
      }
      assert neg[..|neg|] == neg;
    }

    /** Add all resolvents on v. */
    method Produce(v: Var, pos: seq<CRef>, neg: seq<CRef>, ghost s: Simp) returns (b: bool)
      requires ok && Simplifying() && s == S() && Shape(s, {v}) && Sides(s, v, pos, neg) && v < |assigns|
      modifies this`ok, this`ca, this`assigns, this`trail, this`occurs, this`touched, this`nTouched,
               this`queue
      ensures b == ok && Simplifying() && |assigns| == |old(assigns)| && old(trail) <= trail
      ensures |old(ca)| <= |ca| && old(queue) <= queue && Queued(|old(ca)|, |ca|, queue)
      ensures |ca| <= |s.ca| + PairCount(s.ca, pos, neg, v, |pos|)
      ensures |occurs| == |old(occurs)| && (v < |occurs| ==> occurs[v] == old(occurs)[v])
      ensures b ==> Shape(S(), {v}) && Grown(s, S()) && SameModels(s, S()) && ProducedAll(s, S(), v, pos, neg)
      ensures !b ==> NoModel(s)
    {
      hide Simplifying, SameModels, NoModel, Shape, Grown, Sides, RowCount, Produced, Queued;
      b := true;
      GrownReflexive(s);
      QueuedNone(|ca|, queue);
      SameModelsReflexive(s);
      var i := 0;
      while i < |pos|
        invariant 0 <= i <= |pos| && ok && Simplifying() && |assigns| == |old(assigns)| && old(trail) <= trail
        invariant |old(ca)| <= |ca| && old(queue) <= queue && Queued(|old(ca)|, |ca|, queue)
        invariant |ca| <= |s.ca| + PairCount(s.ca, pos, neg, v, i)
        invariant |occurs| == |old(occurs)| && (v < |occurs| ==> occurs[v] == old(occurs)[v])
        invariant Shape(S(), {v}) && Grown(s, S()) && SameModels(s, S()) && ProducedAll(s, S(), v, pos[..i], neg)
      {
        ghost var t := S();
        assert pos[i] in pos;
        b := ProduceRow(v, pos[i], pos, neg, s);
        QueuedJoin(|old(ca)|, |t.ca|, |ca|, t.queue, queue);
        if !b {
          PairGrows(s.ca, pos, neg, v, i + 1, |pos|);
          return;
        }
        ProducedAllLater(s, t, S(), v, pos[..i], neg);
        assert pos[..i + 1] == pos[..i] + [pos[i]];
        i := i + 1;
      }
      assert pos[..|pos|] == pos;
    }

    /** Delete the clauses on a variable that is being eliminated. */
    method RemoveAll(cls: seq<CRef>, v: Var)
      requires Simplifying() && Shape(S(), {v}) && Distinct(cls) && forall cr :: cr in cls ==> Problem(ca, cr)
      modifies this`ca, this`dirty, this`dirties, this`elimHeap
      ensures Simplifying() && Shape(S(), {v}) && DeletedAll(old(ca), ca, cls)
      ensures old(elimHeap) <= elimHeap
    {
      hide Simplifying, Shape;
      var i := 0;
      while i < |cls|
        invariant 0 <= i <= |cls| && Simplifying() && Shape(S(), {v}) && DeletedAll(old(ca), ca, cls[..i])
        invariant old(elimHeap) <= elimHeap
      {
        assert cls[i] in cls && cls[i] !in cls[..i];
        ghost var cb := ca;
        RemoveClause(cls[i], {v});
        DeletedStep(old(ca), cb, cls[..i], cls[i]);
        assert cls[..i + 1] == cls[..i] + [cls[i]];
        i := i + 1;
      }
      assert cls[..|cls|] == cls;
    }

    /** Replace the clauses on v by their resolvents, keeping the records that undo it. */
    method Replace(v: Var, pos: seq<CRef>, neg: seq<CRef>) returns (b: bool)
      requires ok && Working() && v < |assigns| && !eliminated[v] && assigns[v] == Undef && Sides(S(), v, pos, neg)
      requires forall cr :: cr in occurs[v] ==> Problem(ca, cr)
      modifies this`ok, this`ca, this`assigns, this`trail, this`occurs, this`touched, this`nTouched,
               this`queue, this`dirty, this`dirties, this`elimHeap, this`eliminated, this`decision, this`elimclauses,
               this`recs
      ensures b == ok && (b ==> Working()) && (!b ==> Unsat(original)) && Simplifying()
      ensures eliminated == old(eliminated)[v := true] && decision == old(decision)[v := false]
      ensures |assigns| == |old(assigns)| && old(trail) <= trail && old(elimHeap) <= elimHeap && old(queue) <= queue
      ensures b ==> Renewed(old(ca), ca, queue)
      ensures |ca| <= |old(ca)| + PairCount(old(ca), pos, neg, v, |pos|)
    {
      hide Shape, Simplifying, Reconstructs, Sides, PairCount, Recorded, SideRecords, Unsat, NoModel, Renewed, Queued,
        SameModels, ProducedAll, Grown;
      ghost var s0 := S();
      TableSizes();
      MarkEliminated(v);
      ghost var s := S();
      ghost var new_, x := StoreRecords(v, pos, neg, s0);
      SidesGone(s0, s, v, pos, neg);
      b := Produce(v, pos, neg, s);
      if !b {
        NoModelUnsat(s0, s);
        return;
      }
      FinishReplace(v, pos, neg, s0, s, x, new_);
    }

    /** Store what restores the value of v, which is being eliminated from s0. */
    method StoreRecords(v: Var, pos: seq<CRef>, neg: seq<CRef>, ghost s0: Simp)
      returns (ghost new_: seq<Record>, ghost x: Lit)
      requires Shape(s0, {}) && Sides(s0, v, pos, neg) && ca == s0.ca && v < |s0.gone| && !s0.gone[v]
      requires Recorded(recs, elimclauses, s0.gone)
      modifies this`elimclauses
      ensures forall cr :: cr in pos || cr in neg ==> 0 <= cr < |ca|
      ensures x.v == v && SideRecords(new_, LitsOf(ca, if x.neg then pos else neg), x)
      ensures Recorded(recs + new_ + [[x]], elimclauses, s0.gone[v := true])
    {
      hide Shape, Sides, Recorded, SideRecords, Encode, NoPair, Remaining;
      SidesProblem(s0, v, pos, neg);
      RecordedBuffer(recs, elimclauses, s0.gone);
      new_, x := StoreGroup(v, pos, neg);
      SideVars(s0, v, pos, neg, if x.neg then pos else neg, new_, x);
      SideHeads(new_, LitsOf(ca, if x.neg then pos else neg), x);
      RecordedStep(recs, old(elimclauses), s0.gone, x, new_, elimclauses);
    }

    method MarkEliminated(v: Var)
      requires Simplifying() && Shape(S(), {}) && v < |assigns|
      modifies this`eliminated, this`decision
      ensures Simplifying() && Shape(S(), {v}) && v < |occurs|
      ensures eliminated == old(eliminated)[v := true] && decision == old(decision)[v := false]
    {
      hide Shape;
      LeavingShape(S(), v);
      eliminated := eliminated[v := true];
      decision := decision[v := false];
    }

    lemma TableSizes()
      requires Simplifying()
      ensures |eliminated| == |decision| == |frozen| == |touched| == |occurs| == |dirty| == |assigns|
    {
    }

    lemma NoModelUnsat(s0: Simp, s: Simp)
      requires Reconstructs(original, recs, s0) && NoModel(s) && s.ca == s0.ca && s.trail == s0.trail
      ensures Unsat(original)
    {
      SameClauses(s0, s);
      NoModelSame(s0, s);
      Equisatisfiable(original, recs, s0);
    }

    method FinishReplace(v: Var, ghost pos: seq<CRef>, ghost neg: seq<CRef>, ghost s0: Simp, ghost s: Simp,
                         ghost x: Lit, ghost new_: seq<Record>)
      requires Simplifying() && Shape(S(), {v}) && Shape(s0, {}) && Shape(s, {v}) && s == s0.(gone := s.gone)
      requires x.v == v < |assigns| && IsUndef(s0.assigns, x) && Sides(s0, v, pos, neg) && bwdsubAssigns <= |trail|
      requires forall cr :: cr in pos || cr in neg ==> 0 <= cr < |s0.ca|
      requires SideRecords(new_, LitsOf(s0.ca, if x.neg then pos else neg), x)
      requires Reconstructs(original, recs, s0) && Recorded(recs + new_ + [[x]], elimclauses, eliminated)
      requires Grown(s, S()) && SameModels(s, S()) && ProducedAll(s, S(), v, pos, neg)
      requires Queued(|s.ca|, |ca|, queue)
      requires v < |s.occurs| && occurs[v] == s.occurs[v] && forall cr :: cr in occurs[v] ==> Problem(s.ca, cr)
      modifies this`ca, this`occurs, this`dirty, this`dirties, this`elimHeap, this`recs
      ensures Working() && |ca| == |old(ca)| && old(elimHeap) <= elimHeap && Renewed(s.ca, ca, queue)
    {
      hide ClausesFit, TrailFits, OccursComplete, ScratchFits, QueueFits, Reconstructs, Sides, Recorded,
           SideRecords, Grown, SameModels, ProducedAll, Models, Renewed, Queued;
      ghost var t := S();
      GrownRenewed(s, t);
      ListedExactly(t, v, {v});
      ListedOn(s, t, v, {v});
      var cls := occurs[v];
      RemoveAll(cls, v);
      ghost var u := S();
      LeftBehind(u, v, cls, t.ca);
      RenewedDeleted(s.ca, t.ca, u.ca, cls, queue);
      occurs := occurs[v := []];
      ReplacedReconstructs(original, recs, s0, s, t, u, S(), x, pos, neg, cls, new_);
      recs := recs + new_ + [[x]];
    }

    method ReplaceAndSubsume(v: Var, pos: seq<CRef>, neg: seq<CRef>) returns (b: bool)
      requires ok && Working() && v < |assigns| && !eliminated[v] && assigns[v] == Undef && Sides(S(), v, pos, neg)
      requires forall cr :: cr in occurs[v] ==> Problem(ca, cr)
      modifies this`ok, this`ca, this`assigns, this`trail, this`occurs, this`touched, this`nTouched,
               this`queue, this`dirty, this`dirties, this`elimHeap, this`eliminated, this`decision, this`elimclauses,
               this`recs, this`bwdsubAssigns, this`asynchInterrupt
      ensures b ==> Working() && ok
      ensures !b ==> Unsat(original)
      ensures Simplifying() && |assigns| == |old(assigns)| && (old(asynchInterrupt) ==> asynchInterrupt)
      ensures eliminated == old(eliminated)[v := true] && decision == old(decision)[v := false]
      ensures b ==> queue == [] && bwdsubAssigns == |trail|
      ensures b && !asynchInterrupt ==> Absorbed(old(ca), old(queue), ca, subsumptionLim)
      ensures old(trail) <= trail && old(elimHeap) <= elimHeap
    {
      hide Shape, Simplifying, Reconstructs, Recorded, Unsat, PairCount, Sides, Renewed, Exhausted, Absorbed, NoneGrown;
      b := Replace(v, pos, neg);
      if !b {
        return;
      }
      ghost var ca1, q1 := ca, queue;
      b := SubsumeWorking();
      if b && !asynchInterrupt {
        RenewedAbsorbed(old(ca), old(queue), ca1, q1, ca, subsumptionLim);
      }
    }

    /** Eliminate v if the limits allow it, then subsume with the new clauses. */
    method EliminateVar(v: Var) returns (b: bool, ghost pos: seq<CRef>, ghost neg: seq<CRef>)
      requires ok && Working() && v < |assigns| && !frozen[v] && !eliminated[v] && assigns[v] == Undef
      modifies this`ok, this`ca, this`assigns, this`trail, this`occurs, this`touched, this`nTouched,
               this`queue, this`dirty, this`dirties, this`elimHeap, this`eliminated, this`decision, this`elimclauses,
               this`recs, this`bwdsubAssigns, this`asynchInterrupt, this`tried
      ensures b ==> Working() && ok
      ensures !b ==> Unsat(original)
      ensures Simplifying() && |assigns| == |old(assigns)| && (old(asynchInterrupt) ==> asynchInterrupt)
      ensures eliminated == old(eliminated)[v := true] || (b && eliminated == old(eliminated))
      ensures !eliminated[v] ==>
                unchanged(this`ca, this`assigns, this`trail, this`queue, this`bwdsubAssigns, this`elimHeap,
                          this`nTouched, this`decision)
      ensures eliminated[v] ==> decision == old(decision)[v := false]
      ensures Sides(old(S()), v, pos, neg)
      ensures eliminated[v] <==> WorthIt(old(ca), clauseLim, grow, v, pos, neg)
      ensures eliminated[v] && b ==> queue == [] && bwdsubAssigns == |trail|
      ensures eliminated[v] && b && !asynchInterrupt ==> Absorbed(old(ca), old(queue), ca, subsumptionLim)
      ensures tried == old(tried) + [v] && old(trail) <= trail && old(elimHeap) <= elimHeap
    {
      hide Shape, Simplifying, Reconstructs, Recorded, SameModels, NoModel, Unsat, PairCount, ShortEnough, Sides,
        WorthIt, Renewed, Exhausted, Absorbed, NoneGrown;
      TableSizes();
      tried := tried + [v];
      ghost var s := S();
      LookupWorking(v);
      var positive, negative := SplitOccurrences(v);
      pos, neg := positive, negative;
      SidesGone(S(), s, v, pos, neg);
      var fits := WithinLimits(v, positive, negative);
      if !fits {
        return true, pos, neg;
      }
      b := ReplaceAndSubsume(v, positive, negative);
    }

    method LookupWorking(v: Var)
      requires Working() && v < |assigns|
      modifies this`occurs, this`dirty
      ensures Working() && forall cr :: cr in occurs[v] ==> Problem(ca, cr)
      ensures v < |occurs|
    {
      hide ClausesFit, TrailFits, OccursSound, OccursComplete, ScratchFits, QueueFits, Reconstructs, Recorded,
        SameModels;
      ghost var s := S();
      Lookup(v);
      SameClauses(s, S());
      SameReconstructs(original, recs, s, S());
    }

    method SubsumeWorking() returns (b: bool)
      requires Working()
      modifies this`queue, this`ca, this`dirty, this`dirties, this`elimHeap, this`occurs, this`assigns, this`trail,
               this`bwdsubAssigns, this`asynchInterrupt
      ensures Simplifying() && (old(asynchInterrupt) ==> asynchInterrupt) && |assigns| == |old(assigns)|
      ensures b ==> Working() && queue == [] && bwdsubAssigns == |trail| && NoneGrown(old(ca), ca)
      ensures b && !asynchInterrupt ==> Exhausted(old(ca), old(queue), ca, subsumptionLim)
      ensures old(trail) <= trail && old(elimHeap) <= elimHeap
      ensures !b ==> Unsat(original)
    {
      hide Exhausted, NoneGrown, FactsGone, Shape, Simplifying, Reconstructs, Recorded, SameModels, NoModel, Unsat;
      ghost var t := S();
      b := BackwardSubsumptionCheck();
      if b {
        SameReconstructs(original, recs, t, S());
      } else {
        NoModelUnsat(t, t);
      }
    }

    // ---------------------------------------------------------------- the whole simplification

    /** What holds between calls: the given clauses and what is left agree, or there is nothing to satisfy. */
    ghost predicate Valid()
      reads this
    {
      && Within(original, |assigns|) && |eliminated| == |frozen| == |decision| == |assigns|
      && if ok then
           && Sizes() && Shape(S(), {}) && bwdsubAssigns <= |trail|
           && Reconstructs(original, recs, S()) && Recorded(recs, elimclauses, eliminated)
         else Unsat(original)
    }

    /**
     * Pick variables off the heap, in any order, and eliminate those that may go. Without an interrupt none is passed
     * over; if nothing is eliminated then the clauses are the same as before and every variable tried would not pay.
     */
    method EliminateVars() returns (b: bool)
      requires ok && Working() && !asynchInterrupt
      modifies this`ok, this`ca, this`assigns, this`trail, this`occurs, this`touched, this`nTouched,
               this`queue, this`dirty, this`dirties, this`elimHeap, this`eliminated, this`decision, this`elimclauses,
               this`recs, this`bwdsubAssigns, this`asynchInterrupt, this`tried
      ensures b ==> ok && Working()
      ensures !b ==> Unsat(original)
      ensures |eliminated| == |decision| == |assigns| == |old(assigns)|
      ensures NewlyEliminated(old(eliminated), eliminated, frozen) && old(trail) <= trail
      ensures |eliminated| == |frozen|
      ensures old(tried) <= tried && (b ==> elimHeap == {} || asynchInterrupt)
      ensures b && eliminated == old(eliminated) ==>
                && unchanged(this`ca, this`assigns, this`trail, this`bwdsubAssigns, this`nTouched)
                && forall v :: v in tried[|old(tried)|..] ==> Refused(old(S()), clauseLim, grow, v)
      ensures b && useElim && !asynchInterrupt ==>
                Considered(old(elimHeap), frozen, eliminated, assigns, tried[|old(tried)|..])
    {
      hide *;
      WorkingSizes();
      ghost var s := Snapshot();
      NewlyReflexive(eliminated, frozen);
      b := true;
      ghost var mine := [];
      ConsideredNone(frozen, eliminated, assigns, mine);
      assert elimHeap - elimHeap == {};
      while elimHeap != {}
        invariant ok && Working() && b && |assigns| == |old(assigns)| && old(trail) <= trail
        invariant NewlyEliminated(old(eliminated), eliminated, frozen)
        invariant tried == old(tried) + mine
        invariant eliminated == old(eliminated) ==>
                    && unchanged(this`ca, this`assigns, this`trail, this`bwdsubAssigns, this`nTouched)
                    && forall v :: v in mine ==> Refused(old(S()), clauseLim, grow, v)
        invariant useElim ==> Considered(old(elimHeap) - elimHeap, frozen, eliminated, assigns, mine)
        decreases Remaining(eliminated), elimHeap
      {
        ghost var gone, rest, more := eliminated, old(elimHeap) - elimHeap, [];
        var elim := PopVar();
        if asynchInterrupt {
          break;
        }
        b, more := ConsiderVar(elim, rest, mine, s);
        NewlyTransitive(old(eliminated), gone, eliminated, frozen);
        TableSizes();
        if !b {
          return;
        }
        mine := mine + more;
        if useElim {
          ConsideredFewer(rest + {elim}, old(elimHeap) - elimHeap, frozen, eliminated, assigns, mine, mine);
        }
      }
      assert tried[|old(tried)|..] == mine;
      WorkingSizes();
      assert elimHeap == {} ==> old(elimHeap) - elimHeap == old(elimHeap);
    }

    /** Take some variable off the heap; the user may interrupt. */
    method PopVar() returns (elim: Var)
      requires Working() && elimHeap != {}
      modifies this`elimHeap, this`asynchInterrupt
      ensures Working() && elim in old(elimHeap) && elim < |assigns| && elimHeap == old(elimHeap) - {elim}
      ensures old(asynchInterrupt) ==> asynchInterrupt
    {
      hide Shape, Reconstructs, Recorded;
      elim :| elim in elimHeap;
      elimHeap := elimHeap - {elim};
      PollInterrupt();
    }

    lemma Snapshot() returns (s: Simp)
      ensures s == S() && s.ca == ca
    {
      s := S();
    }

    lemma SnapshotWorking() returns (s: Simp)
      requires Working()
      ensures s.trail == trail && s.assigns == assigns && s.gone == eliminated && Shape(s, {})
    {
      s := S();
    }

    lemma WorkingSizes()
      requires Working()
      ensures Simplifying() && |eliminated| == |decision| == |frozen| == |occurs| == |assigns|
      ensures bwdsubAssigns <= |trail|
    {
    }

    /** Eliminate a variable that has come off the heap, unless it is not to be. */
    method ConsiderVar(elim: Var, ghost rest: set<Var>, ghost mine: seq<Var>, ghost s0: Simp)
      returns (b: bool, ghost more: seq<Var>)
      requires ok && Working() && elim < |assigns|
      requires useElim ==> Considered(rest, frozen, eliminated, assigns, mine)
      modifies this`ok, this`ca, this`assigns, this`trail, this`occurs, this`touched, this`nTouched,
               this`queue, this`dirty, this`dirties, this`elimHeap, this`eliminated, this`decision, this`elimclauses,
               this`recs, this`bwdsubAssigns, this`asynchInterrupt, this`tried
      ensures b ==> ok && Working()
      ensures !b ==> Unsat(original)
      ensures Simplifying() && |assigns| == |old(assigns)| && (old(asynchInterrupt) ==> asynchInterrupt)
      ensures old(trail) <= trail && old(elimHeap) <= elimHeap && NewlyEliminated(old(eliminated), eliminated, frozen)
      ensures eliminated != old(eliminated) ==> !old(eliminated)[elim] && eliminated == old(eliminated)[elim := true]
      ensures eliminated == old(eliminated) ==>
                b && unchanged(this`ca, this`assigns, this`trail, this`bwdsubAssigns, this`nTouched, this`elimHeap)
      ensures tried == old(tried) + more && (more == [] || more == [elim])
      ensures more != [] && eliminated == old(eliminated) && s0.ca == ca ==> Refused(s0, clauseLim, grow, elim)
      ensures b && useElim ==> Considered(rest + {elim}, frozen, eliminated, assigns, mine + more)
    {
      hide Shape, Reconstructs, Recorded, Unsat, NewlyEliminated, Considered, Refused, Absorbed, Sides, WorthIt,
        TablesFit;
      b, more := true, [];
      assert mine + [] == mine;
      NewlyReflexive(eliminated, frozen);
      if eliminated[elim] || assigns[elim] != Undef {
        if useElim {
          ConsideredOne(rest, elim, frozen, eliminated, assigns, mine);
        }
        return;
      }
      if useElim && !frozen[elim] {
        ghost var s, pos, neg := S(), [], [];
        b, pos, neg := EliminateVar(elim);
        more := [elim];
        NewlyStep(s.gone, s.gone, eliminated, frozen, elim);
        if b {
          ConsideredLater(rest, rest, frozen, s, S(), mine, mine + more);
          ConsideredOne(rest, elim, frozen, eliminated, assigns, mine + more);
        }
        if !eliminated[elim] && s0.ca == ca {
          RefusedSame(s, s0, clauseLim, grow, elim, pos, neg);
        }
      } else if useElim {
        ConsideredOne(rest, elim, frozen, eliminated, assigns, mine);
      }
    }

    method GatherWorking()
      requires Working()
      modifies this`queue, this`ca, this`occurs, this`dirty, this`touched, this`nTouched
      ensures Working() && ca == old(ca) && nTouched == 0 && old(queue) <= queue
      ensures old(nTouched) > 0 ==> forall c :: Touches(ca, old(touched), c) ==> c in queue
    {
      hide Shape, Reconstructs, Recorded, SameModels;
      ghost var s := S();
      GatherTouchedClauses();
      SameClauses(s, S());
      SameReconstructs(original, recs, s, S());
    }

    /** Queue the clauses of touched variables and subsume with them, and with what was queued before. */
    method SubsumeTouched() returns (b: bool)
      requires Working()
      modifies this`queue, this`ca, this`dirty, this`dirties, this`elimHeap, this`occurs, this`assigns, this`trail,
               this`bwdsubAssigns, this`asynchInterrupt, this`touched, this`nTouched
      ensures b ==> Working() && queue == [] && bwdsubAssigns == |trail| && nTouched == 0
      ensures b && !asynchInterrupt ==>
                forall c :: c in old(queue) || (old(nTouched) > 0 && Touches(old(ca), old(touched), c)) ==>
                    Exhausted(old(ca), [c], ca, subsumptionLim)
      ensures !b ==> Unsat(original)
      ensures |eliminated| == |decision| == |assigns| == |old(assigns)| && (old(asynchInterrupt) ==> asynchInterrupt)
      ensures old(trail) <= trail && old(elimHeap) <= elimHeap
    {
      hide Shape, Reconstructs, Recorded, Unsat, Simplifying, Exhausted, Touches, NoneGrown;
      GatherWorking();
      TableSizes();
      b := true;
      ghost var q1 := queue;
      if |queue| > 0 || bwdsubAssigns < |trail| {
        b := SubsumeWorking();
        TableSizes();
        if b && !asynchInterrupt {
          forall c | c in q1 ensures Exhausted(old(ca), [c], ca, subsumptionLim) {
            ExhaustedFewer(old(ca), [c], q1, ca, subsumptionLim);
          }
        }
      }
    }

    /**
     * Subsume and eliminate in turn until nothing is left to do, or the user interrupts. Without an interrupt no
     * variable on the heap is passed over.
     */
    method EliminationLoop() returns (b: bool)
      requires ok && Working()
      modifies this`ok, this`ca, this`assigns, this`trail, this`occurs, this`touched, this`nTouched,
               this`queue, this`dirty, this`dirties, this`elimHeap, this`eliminated, this`decision, this`elimclauses,
               this`recs, this`bwdsubAssigns, this`asynchInterrupt, this`tried
      ensures b ==> ok && Working()
      ensures b && !asynchInterrupt ==> nTouched == 0 && bwdsubAssigns == |trail| && elimHeap == {}
      ensures !b ==> Unsat(original)
      ensures |eliminated| == |decision| == |assigns| == |old(assigns)|
      ensures NewlyEliminated(old(eliminated), eliminated, frozen)
      ensures old(tried) <= tried
      ensures b && useElim && !asynchInterrupt ==>
                Considered(old(elimHeap), frozen, eliminated, assigns, tried[|old(tried)|..])
    {
      hide *;
      WorkingSizes();
      NewlyReflexive(eliminated, frozen);
      b := true;
      ghost var n := |tried|;
      ConsideredNone(frozen, eliminated, assigns, tried[n..]);
      assert elimHeap - elimHeap == {};
      while nTouched > 0 || bwdsubAssigns < |trail| || elimHeap != {}
        invariant b && ok && Working() && |eliminated| == |decision| == |assigns| == |old(assigns)|
        invariant NewlyEliminated(old(eliminated), eliminated, frozen) && n == |old(tried)| && old(tried) <= tried
        invariant useElim && !asynchInterrupt ==>
                    Considered(old(elimHeap) - elimHeap, frozen, eliminated, assigns, tried[n..])
        decreases Remaining(eliminated), !asynchInterrupt,
                  if nTouched > 0 || bwdsubAssigns < |trail| || elimHeap != {} then 1 else 0
      {
        ghost var gone := eliminated;
        var stop;
        b, stop := EliminationTurn(old(elimHeap), n);
        NewlyTransitive(old(eliminated), gone, eliminated, frozen);
        if !b || stop {
          return;
        }
      }
      WorkingSizes();
      assert old(elimHeap) - elimHeap == old(elimHeap);
    }

    /** Subsume, then eliminate what is on the heap; an interrupt in between empties the heap and ends the loop. */
    method EliminationTurn(ghost heap: set<Var>, ghost n: nat) returns (b: bool, stop: bool)
      requires ok && Working() && n <= |tried|
      requires useElim && !asynchInterrupt ==> Considered(heap - elimHeap, frozen, eliminated, assigns, tried[n..])
      modifies this`ok, this`ca, this`assigns, this`trail, this`occurs, this`touched, this`nTouched,
               this`queue, this`dirty, this`dirties, this`elimHeap, this`eliminated, this`decision, this`elimclauses,
               this`recs, this`bwdsubAssigns, this`asynchInterrupt, this`tried
      ensures b ==> ok && Working()
      ensures !b ==> Unsat(original)
      ensures |eliminated| == |decision| == |assigns| == |old(assigns)|
      ensures NewlyEliminated(old(eliminated), eliminated, frozen) && old(tried) <= tried
      ensures (stop ==> asynchInterrupt) && (old(asynchInterrupt) && b ==> stop)
      ensures b && eliminated == old(eliminated) ==>
                asynchInterrupt || (nTouched == 0 && bwdsubAssigns == |trail| && elimHeap == {})
      ensures b && useElim && !asynchInterrupt ==>
                Considered(heap - elimHeap, frozen, eliminated, assigns, tried[n..])
    {
      hide *;
      WorkingSizes();
      NewlyReflexive(eliminated, frozen);
      ghost var s := SnapshotWorking();
      ghost var done0 := heap - elimHeap;
      stop := false;
      b := SubsumeTouched();
      if !b {
        return;
      }
      stop := StopOnInterrupt();
      if stop {
        WorkingSizes();
        return;
      }
      ghost var t := SnapshotWorking();
      ghost var heap1, tried1, done1 := elimHeap, tried, heap - elimHeap;
      if useElim {
        ConsideredLater(done0, done1, frozen, s, t, tried1[n..], tried1[n..]);
      }
      b := EliminateVars();
      if b && useElim && !asynchInterrupt {
        ghost var u := SnapshotWorking();
        ConsideredLater(done1, done1, frozen, t, u, tried1[n..], tried[n..]);
        ConsideredFewer(heap1, heap1, frozen, eliminated, assigns, tried[|tried1|..], tried[n..]);
        ConsideredJoin(done1, heap1, frozen, eliminated, assigns, tried[n..]);
        ConsideredFewer(done1 + heap1, heap, frozen, eliminated, assigns, tried[n..], tried[n..]);
        assert heap - elimHeap == heap;
      }
    }

    /** An interrupt empties the heap. */
    method StopOnInterrupt() returns (stop: bool)
      requires Working()
      modifies this`elimHeap, this`asynchInterrupt
      ensures Working() && stop == asynchInterrupt && (old(asynchInterrupt) ==> stop)
      ensures elimHeap == if stop then {} else old(elimHeap)
    {
      hide Shape, Reconstructs, Recorded;
      PollInterrupt();
      stop := asynchInterrupt;
      if stop {
        elimHeap := {};
      }
    }

    /** Clean every list that may hold deleted clauses. */
    method CleanAll()
      requires Simplifying() && Shape(S(), {})
      modifies this`occurs, this`dirty, this`dirties
      ensures Simplifying() && Shape(S(), {}) && dirties == []
      ensures forall v :: 0 <= v < |dirty| ==> !dirty[v]
    {
      hide ClausesFit, TrailFits, OccursSound, OccursComplete, ScratchFits, QueueFits;
      var i := 0;
      while i < |dirties|
        invariant 0 <= i <= |dirties| && Simplifying() && dirties == old(dirties)
        invariant OccursSound(ca, occurs, dirty) && OccursComplete(ca, occurs)
        invariant forall v :: 0 <= v < |dirty| && dirty[v] ==> v in dirties[i..]
      {
        var v := dirties[i];
        assert v in dirties;
        assert forall x :: x in dirties[i..] ==> x == v || x in dirties[i + 1..];
        if dirty[v] {
          CleanOccurs(v);
        }
        i := i + 1;
      }
      dirties := [];
    }

    /** Drop what only simplification needs, for good, or tidy it up for the next round. */
    method FinishSimplification(turnOff: bool)
      requires Working()
      modifies this`touched, this`occurs, this`dirty, this`dirties, this`elimHeap, this`queue, this`useSimplification
      ensures Sizes() && Shape(S(), {}) && SameModels(old(S()), S())
      ensures useSimplification == !turnOff
    {
      hide ClausesFit, TrailFits, Reconstructs, Recorded;
      ghost var s := S();
      if turnOff {
        touched, occurs, dirty, dirties, elimHeap, queue, useSimplification := [], [], [], [], {}, [], false;
      } else {
        CleanAll();
      }
      SameClauses(s, S());
    }

    method EliminateAll(turnOff: bool, few: bool)
      requires ok && Working() && Within(original, |assigns|)
      modifies this
      ensures old(tried) <= tried
      ensures ok && few && useElim && !asynchInterrupt ==>
                Considered(old(elimHeap), frozen, eliminated, assigns, tried[|old(tried)|..])
      ensures useElim == old(useElim) && Valid() && original == old(original) && |assigns| == |old(assigns)|
      ensures frozen == old(frozen) && NewlyEliminated(old(eliminated), eliminated, frozen)
    {
      hide Shape, Reconstructs, Recorded, Simplifying, Unsat, SameModels, Within;
      TableSizes();
      if few {
        var b := EliminationLoop();
        if !b {
          ok := false;
          return;
        }
      }
      ghost var s := S();
      TableSizes();
      FinishSimplification(turnOff);
      SameReconstructs(original, recs, s, S());
    }

    /**
     * Simplify: propagate at level 0, then, if there are few enough clauses, subsume and eliminate, considering every
     * variable on the heap unless the user interrupts. False when the clauses are unsatisfiable.
     */
    method Eliminate(turnOff: bool, few: bool) returns (b: bool)
      requires Valid()
      modifies this
      ensures old(tried) <= tried
      ensures b && few && old(useSimplification) && old(useElim) && !asynchInterrupt ==>
                Considered(old(elimHeap), frozen, eliminated, assigns, tried[|old(tried)|..])
      ensures Valid() && b == ok && original == old(original) && |assigns| == |old(assigns)|
      ensures frozen == old(frozen) && NewlyEliminated(old(eliminated), eliminated, frozen)
    {
      hide Shape, Reconstructs, Recorded, Simplifying, Unsat, SameModels, Within, NoModel, Shuffled;
      if !ok {
        return false;
      }
      PropagateRoot();
      if ok && useSimplification {
        EliminateAll(turnOff, few);
      }
      b := ok;
    }

    method PropagateRoot()
      requires Valid() && ok
      modifies this`ok, this`ca, this`assigns, this`trail
      ensures Valid() && |assigns| == |old(assigns)| && (ok && useSimplification ==> Working())
    {
      hide Shape, Reconstructs, Recorded, Simplifying, Unsat, SameModels, Within, NoModel, Shuffled;
      ghost var s := S();
      var conflict := Propagate({});
      SizesAssigned();
      SameReconstructs(original, recs, s, S());
      if conflict {
        ok := false;
        NoModelUnsat(S(), S());
      }
    }

    // ---------------------------------------------------------------- the problem's interface

    /** An empty solver. */
    constructor (elim: bool, growth: int, clauseLimit: int, subsumptionLimit: int)
      ensures Valid() && ok && original == [] && assigns == [] && eliminated == []
    {
      ok, assigns, trail, decision, occurs, dirty, dirties := true, [], [], [], [], [], [];
      ca := [SClause([Lit(0, false)], 0, Abstraction([Lit(0, false)]))];
      touched, nTouched, queue, elimHeap, frozen, eliminated, elimclauses := [], 0, [], {}, [], [], [];
      bwdsubAssigns, useSimplification, useElim := 0, true, elim;
      grow, clauseLim, subsumptionLim := growth, clauseLimit, subsumptionLimit;
      asynchInterrupt, model := false, [];
      original, recs := [], [];
    }

    /** A new variable; unless elimination is off it may be eliminated. */
    method NewVar(dvar: bool) returns (v: Var)
      requires Valid()
      modifies this`assigns, this`decision, this`frozen, this`eliminated, this`occurs, this`dirty, this`touched,
               this`elimHeap
      ensures Valid() && v == |old(assigns)| && |assigns| == v + 1
      ensures eliminated == old(eliminated) + [false] && frozen == old(frozen) + [false]
      ensures elimHeap == old(elimHeap) + if useSimplification then {v} else {}
    {
      hide Reconstructs, Recorded, Shape, Unsat, Within, Sizes, OneWider;
      v := |assigns|;
      WithinMore(original, v);
      ghost var s, gone := S(), eliminated;
      GrowTables(dvar);
      if ok {
        TablesWider();
        WidenKeeps(s, S());
        WidenRecorded(recs, elimclauses, gone);
      }
    }

    method GrowTables(dvar: bool)
      modifies this`assigns, this`decision, this`frozen, this`eliminated, this`occurs, this`dirty, this`touched,
               this`elimHeap
      ensures assigns == old(assigns) + [Undef] && decision == old(decision) + [dvar]
      ensures eliminated == old(eliminated) + [false] && frozen == old(frozen) + [false]
      ensures if useSimplification then
                && occurs == old(occurs) + [[]] && dirty == old(dirty) + [false] && touched == old(touched) + [false]
                && elimHeap == old(elimHeap) + {|old(assigns)|}
              else unchanged(this`occurs, this`dirty, this`touched, this`elimHeap)
    {
      var v := |assigns|;
      assigns, decision := assigns + [Undef], decision + [dvar];
      frozen, eliminated := frozen + [false], eliminated + [false];
      if useSimplification {
        occurs, dirty, touched := occurs + [[]], dirty + [false], touched + [false];
        elimHeap := elimHeap + {v};
      }
    }

    twostate lemma TablesWider()
      requires old(Sizes()) && unchanged(this`useSimplification, this`ca, this`trail, this`queue, this`dirties)
      requires |assigns| == |decision| == |frozen| == |old(assigns)| + 1
      requires assigns == old(assigns) + [Undef] && eliminated == old(eliminated) + [false]
      requires if useSimplification then
                 && occurs == old(occurs) + [[]] && dirty == old(dirty) + [false] && touched == old(touched) + [false]
                 && elimHeap == old(elimHeap) + {|old(assigns)|}
               else unchanged(this`occurs, this`dirty, this`touched, this`elimHeap)
      ensures Sizes() && OneWider(old(S()), S())
    {
      hide TablesFit;
      if useSimplification {
        TablesGrow(old(dirty), dirties, old(elimHeap), |old(assigns)|);
      }
    }

    lemma WidenKeeps(s: Simp, t: Simp)
      requires Shape(s, {}) && OneWider(s, t) && Reconstructs(original, recs, s)
      ensures Shape(t, {}) && Reconstructs(original, recs, t)
    {
      hide Shape;
      WidenShape(s, t);
      SameClauses(s, t);
      SameReconstructs(original, recs, s, t);
    }

    /** A frozen variable is never eliminated. */
    method SetFrozen(v: Var, b: bool)
      requires Valid() && v < |assigns|
      modifies this`frozen, this`elimHeap
      ensures Valid() && frozen == old(frozen)[v := b]
      ensures elimHeap == old(elimHeap) + if useSimplification && !b && ok && Candidate(v) then {v} else {}
    {
      hide Shape, Reconstructs, Recorded;
      frozen := frozen[v := b];
      if useSimplification && !b && ok {
        UpdateElimHeap(v);
      }
    }

    /** Add a clause over remaining variables; if it is stored, it is queued and its variables are touched. */
    method AddClause(ps: seq<Lit>) returns (b: bool)
      requires Valid() && forall p :: p in ps ==> p.v < |assigns| && !eliminated[p.v]
      modifies this`ok, this`ca, this`assigns, this`trail, this`occurs, this`touched, this`nTouched, this`queue,
               this`original
      ensures Valid() && b == ok && original == old(original) + [ps] && |assigns| == |old(assigns)|
      ensures useSimplification ==> Announced(|old(ca)|, old(nTouched))
    {
      hide Shape, Reconstructs, Recorded, Sizes, Unsat;
      ghost var f, s := original, S();
      original := original + [ps];
      WithinAppend(f, ps, |assigns|);
      if !ok {
        UnsatAppend(f, ps);
        return false;
      }
      b := AddClauseLits(ps, {});
      if b {
        AddedReconstructs(f, s, ps);
      } else {
        RefutedUnsat(f, recs, s, ps);
      }
    }

    lemma AddedReconstructs(f: Formula, s: Simp, ps: seq<Lit>)
      requires Reconstructs(f, recs, s) && Added(s, ps) && Recorded(recs, elimclauses, eliminated)
      requires forall p :: p in ps ==> p.v < |eliminated| && !eliminated[p.v]
      ensures Reconstructs(f + [ps], recs, S())
    {
      ClauseReconstructs(f, recs, s, S(), ps, elimclauses, eliminated);
    }

    static lemma RefutedUnsat(f: Formula, recs: seq<Record>, s: Simp, ps: seq<Lit>)
      requires Reconstructs(f, recs, s) && Refuted(s, ps)
      ensures Unsat(f + [ps])
    {
      forall a: Model ensures !SatAll(a, f + [ps]) {
        SatAppend(a, f, ps);
      }
    }

    // ---------------------------------------------------------------- extending a model

    /** Walk the flat buffer backwards and give the eliminated variables their values. */
    method ExtendModel()
      requires Recorded(recs, elimclauses, eliminated) && |model| in {0, |eliminated|} && |assigns| == |eliminated|
      modifies this`model
      ensures model == Extend(recs, if old(model) == [] then AllTrue(|assigns|) else old(model))
    {
      hide AllNonEmpty, Encode, Extend, ApplyPartial, Recorded;
      RecordedBuffer(recs, elimclauses, eliminated);
      HeadsBelow(recs, elimclauses, eliminated);
      if |model| == 0 {
        model := AllTrue(|assigns|);
      }
      var i: int := |elimclauses| - 1;
      ghost var k, m, m0 := |recs|, model, model;
      assert recs[..k] == recs && elimclauses[..i + 1] == elimclauses;
      while i > 0
        invariant -1 <= i < |elimclauses| && 0 <= k <= |recs| && |model| == |m0|
        invariant Encode(recs[..k]) == elimclauses[..i + 1]
        invariant AllNonEmpty(recs[..k]) && Extend(recs[..k], model) == Extend(recs, m0)
        decreases k
      {
        m := model;
        i := ApplyLast(i, recs[..k]);
        ExtendLast(recs, k, m);
        assert model == ApplyPartial(recs[k - 1], m);
        k := k - 1;
      }
      ExtendDone(recs[..k], model);
    }

    /** Read one record ending at position i and apply it; the result is where the record before it ends. */
    method ApplyLast(i0: int, ghost all: seq<Record>) returns (i: int)
      requires 0 < i0 < |elimclauses| && Encode(all) == elimclauses[..i0 + 1] && AllNonEmpty(all)
      requires forall k :: 0 <= k < |all| ==> all[k][0].v < |model|
      modifies this`model
      ensures all != [] && model == ApplyPartial(all[|all| - 1], old(model))
      ensures -1 <= i == i0 - |all[|all| - 1]| - 1 && Encode(all[..|all| - 1]) == elimclauses[..i + 1]
    {
      ghost var r := all[|all| - 1];
      LastRecord(all, elimclauses, i0);
      assert r[0].v < |model|;
      i := i0;
      var j: nat := elimclauses[i];
      i := i - 1;
      var done := false;
      ghost var first := i0 - |r|;
      while j > 1 && !done
        invariant 1 <= j <= |r| && i == first + j - 1 && model == old(model)
        invariant forall k :: j <= k < |r| ==> IsFalse(model, r[k])
        invariant done ==> j > 1 && !IsFalse(model, r[j - 1])
        decreases j, !done
      {
        assert elimclauses[first + (j - 1)] == ToInt(r[j - 1]);
        LitCoding(r[j - 1], 0);
        if !IsFalse(model, ToLit(elimclauses[i])) {
          done := true;
        } else {
          j, i := j - 1, i - 1;
        }
      }
      if !done {
        assert elimclauses[first + 0] == ToInt(r[0]);
        LitCoding(r[0], 0);
        assert i == first && r == all[|all| - 1];
        var x := ToLit(elimclauses[i]);
        assert x == r[0];
        model := model[x.v := ValueOf(x)];
      }
      i := i - j;
    }
  }
}
