/** Filtering a clause list while deleting what is dropped. */
module Reduction {
  import opened Sat
  import opened SolverState
  import opened Propagation
  import opened Meaning
  import opened WatchClean
  import opened FinalAnalysis
  import opened SearchState
  import opened Removal
  import opened Sorting

  /** The first i references of cs have been kept or deleted; nothing else was touched. */
  ghost predicate Filtering(ca0: Region, ca: Region, cs: seq<CRef>, i: nat, kept: seq<CRef>) {
    && |ca| == |ca0| && i <= |cs| && DistinctRefs(kept)
    && (forall cr :: cr in kept ==> cr in cs[..i])
    && (forall cr :: cr in cs[..i] ==> cr in kept || !Live(ca, cr))
    && (forall cr :: 0 <= cr < |ca| && (cr !in cs[..i] || cr in kept) ==> ca[cr] == ca0[cr])
    && (forall cr :: 0 <= cr < |ca| ==> ca[cr] == ca0[cr] || ca[cr] == ca0[cr].(mark := 1))
  }

  lemma FilterStart(ca: Region, cs: seq<CRef>)
    ensures Filtering(ca, ca, cs, 0, [])
  {
  }

  lemma FilterKeep(ca0: Region, ca: Region, cs: seq<CRef>, i: nat, kept: seq<CRef>)
    requires Filtering(ca0, ca, cs, i, kept) && i < |cs| && DistinctRefs(cs)
    requires forall cr :: cr in cs ==> Live(ca0, cr)
    ensures Live(ca, cs[i]) && ca[cs[i]] == ca0[cs[i]]
    ensures Filtering(ca0, ca, cs, i + 1, kept + [cs[i]])
  {
    assert cs[..i + 1] == cs[..i] + [cs[i]];
    assert cs[i] !in cs[..i];
    assert cs[i] in cs;
  }

  lemma FilterDrop(ca0: Region, ca: Region, cs: seq<CRef>, i: nat, kept: seq<CRef>)
    requires Filtering(ca0, ca, cs, i, kept) && i < |cs| && DistinctRefs(cs)
    requires forall cr :: cr in cs ==> Live(ca0, cr)
    ensures Live(ca, cs[i]) && ca[cs[i]] == ca0[cs[i]]
    ensures Filtering(ca0, Deleted(ca, cs[i]), cs, i + 1, kept)
  {
    assert cs[..i + 1] == cs[..i] + [cs[i]];
    assert cs[i] !in cs[..i];
    assert cs[i] in cs;
  }

  /** Clauses outside the list are untouched. */
  lemma FilterOthers(ca0: Region, ca: Region, cs: seq<CRef>, kept: seq<CRef>, list: seq<CRef>)
    requires Filtering(ca0, ca, cs, |cs|, kept) && multiset(cs) == multiset(list)
    ensures forall cr :: Live(ca0, cr) && cr !in list ==> ca[cr] == ca0[cr]
  {
    assert cs[..|cs|] == cs;
    forall cr | cr !in list ensures cr !in cs {
      assert cr !in multiset(list);
    }
  }

  lemma ListsFilterLearnts(ca0: Region, ca: Region, clauses: seq<CRef>, learnts: seq<CRef>, kept: seq<CRef>)
    requires ListsOk(ca0, clauses, learnts) && Filtering(ca0, ca, learnts, |learnts|, kept)
    ensures ListsOk(ca, clauses, kept)
  {
    assert learnts[..|learnts|] == learnts;
    forall cr | cr in clauses ensures Live(ca, cr) && !ca[cr].learnt {
      assert cr !in learnts;
    }
    forall cr | Live(ca, cr) ensures cr in clauses || cr in kept {
      assert Live(ca0, cr);
    }
  }

  lemma ListsFilterClauses(ca0: Region, ca: Region, clauses: seq<CRef>, learnts: seq<CRef>, kept: seq<CRef>)
    requires ListsOk(ca0, clauses, learnts) && Filtering(ca0, ca, clauses, |clauses|, kept)
    ensures ListsOk(ca, kept, learnts)
  {
    assert clauses[..|clauses|] == clauses;
    forall cr | cr in learnts ensures Live(ca, cr) && ca[cr].learnt {
      assert cr !in clauses;
    }
    forall cr | Live(ca, cr) ensures cr in kept || cr in learnts {
      assert Live(ca0, cr);
    }
  }

  /** Deleting a redundant clause keeps every invariant of the rest. */
  lemma RemoveKeeps(f: Formula, s: State, cr: CRef, q: nat, assumptions: seq<Lit>)
    requires Struct(s) && Means(f, s) && Live(s.ca, cr)
    requires s.lim == [] || !Locked(s.ca, s.assigns, s.vd, cr)
    requires s.ca[cr].learnt || exists x :: x in s.ca[cr].lits && x in Facts(s)
    requires WatchInv(s.ca, s.watches, s.assigns, s.vd, s.pos, q) && AssumptionsOk(s, assumptions)
    ensures var s' := Removed(s, cr);
            Struct(s') && Means(f, s') && WatchInv(s'.ca, s'.watches, s'.assigns, s'.vd, s'.pos, q)
              && AssumptionsOk(s', assumptions)
    ensures |s.ca[cr].lits| >= 2
  {
    hide Struct, SemOk, WatchInv, Facts, AssumptionsOk, Locked;
    RemoveStruct(s, cr);
    RemoveMeans(f, s, cr);
    RemoveWatchInv(s, cr, q);
    RemoveAssumptions(s, cr, assumptions);
  }

  lemma RemoveAssumptions(s: State, cr: CRef, assumptions: seq<Lit>)
    requires 0 <= cr < |s.ca| && AssumptionsOk(s, assumptions)
    ensures AssumptionsOk(Removed(s, cr), assumptions)
  {
    var s' := Removed(s, cr);
    forall l: nat, y | DecisionOf(s', y, l) && l < |assumptions| ensures y == assumptions[l] {
      assert DecisionOf(s, y, l);
    }
  }

  /** Some literal of the clause is true. */
  ghost predicate HasTrueLit(ca: Region, assigns: seq<LBool>, cr: CRef) {
    0 <= cr < |ca| && exists x :: x in ca[cr].lits && IsTrue(assigns, x)
  }

  /** Filtering the learnt clauses leaves the problem clauses as they are. */
  lemma ProblemClausesKept(ca0: Region, ca: Region, clauses: seq<CRef>, learnts: seq<CRef>, kept: seq<CRef>,
                           assigns: seq<LBool>)
    requires ListsOk(ca0, clauses, learnts) && Filtering(ca0, ca, learnts, |learnts|, kept)
    ensures forall cr :: cr in clauses ==> (HasTrueLit(ca, assigns, cr) <==> HasTrueLit(ca0, assigns, cr))
  {
    assert learnts[..|learnts|] == learnts;
    forall cr | cr in clauses ensures ca[cr] == ca0[cr] {
      assert cr !in learnts;
    }
  }

  /** None of the listed clauses has a true literal. */
  ghost predicate NoneSatisfied(ca: Region, cs: seq<CRef>, assigns: seq<LBool>) {
    forall cr :: cr in cs ==> !HasTrueLit(ca, assigns, cr)
  }

  /** Filtering one list by true literals leaves none in it and changes nothing about the other. */
  lemma FilteredUnsatisfied(ca0: Region, ca: Region, cs: seq<CRef>, kept: seq<CRef>, others: seq<CRef>,
                            assigns: seq<LBool>)
    requires Filtering(ca0, ca, cs, |cs|, kept) && forall cr :: cr in kept ==> !HasTrueLit(ca0, assigns, cr)
    requires forall cr :: cr in others ==> cr !in cs
    ensures NoneSatisfied(ca, kept, assigns)
    ensures NoneSatisfied(ca0, others, assigns) ==> NoneSatisfied(ca, others, assigns)
  {
    assert cs[..|cs|] == cs;
  }

  lemma ListsApart(ca: Region, clauses: seq<CRef>, learnts: seq<CRef>)
    requires ListsOk(ca, clauses, learnts)
    ensures forall cr :: cr in clauses ==> cr !in learnts
  {
  }

  // ---------------------------------------------------------------- what reduceDB deletes

  /** The clause at position i of the sorted list goes: it is neither binary nor locked, and early or inactive. */
  ghost predicate Dispensable(ca: Region, assigns: seq<LBool>, vd: seq<VarData>, activity: seq<real>, lim: real,
                              n: nat, i: nat, cr: CRef) {
    && 0 <= cr < |ca| && |ca[cr].lits| > 2 && !Locked(ca, assigns, vd, cr)
    && (i < n / 2 || ActKey(activity, cr) < lim)
  }

  /** Of the first m clauses of the list exactly the indispensable ones are kept. */
  ghost predicate Reduced(ca: Region, assigns: seq<LBool>, vd: seq<VarData>, activity: seq<real>, lim: real,
                          cs: seq<CRef>, m: nat, kept: seq<CRef>) {
    && m <= |cs|
    && (forall cr :: cr in kept ==> cr in cs[..m])
    && forall i :: 0 <= i < m ==> (cs[i] in kept <==> !Dispensable(ca, assigns, vd, activity, lim, |cs|, i, cs[i]))
  }

  lemma ReducedStart(ca: Region, assigns: seq<LBool>, vd: seq<VarData>, activity: seq<real>, lim: real, cs: seq<CRef>)
    ensures Reduced(ca, assigns, vd, activity, lim, cs, 0, [])
  {
  }

  lemma ReducedStep(ca0: Region, ca: Region, assigns: seq<LBool>, vd: seq<VarData>, activity: seq<real>, lim: real,
                    cs: seq<CRef>, i: nat, kept: seq<CRef>)
    requires Reduced(ca0, assigns, vd, activity, lim, cs, i, kept) && i < |cs| && DistinctRefs(cs)
    requires 0 <= cs[i] < |ca0| && cs[i] < |ca| && ca[cs[i]] == ca0[cs[i]] && cs[i] < |activity|
    ensures Locked(ca, assigns, vd, cs[i]) == Locked(ca0, assigns, vd, cs[i])
    ensures if |ca[cs[i]].lits| > 2 && !Locked(ca, assigns, vd, cs[i]) && (i < |cs| / 2 || activity[cs[i]] < lim)
            then Reduced(ca0, assigns, vd, activity, lim, cs, i + 1, kept)
            else Reduced(ca0, assigns, vd, activity, lim, cs, i + 1, kept + [cs[i]])
  {
    assert cs[..i + 1] == cs[..i] + [cs[i]];
    assert cs[i] !in cs[..i];
  }

  // ---------------------------------------------------------------- the order of reduceDB

  /** Size as the comparison of minisat's `reduceDB_lt` sees it: larger than two, or two. */
  function SizeKey(ca: Region, x: CRef): nat {
    if Live(ca, x) && |ca[x].lits| > 2 then |ca[x].lits| else 2
  }

  function ActKey(activity: seq<real>, x: CRef): real {
    if 0 <= x < |activity| then activity[x] else 0.0
  }

  function ReduceOrder(ca: Region, activity: seq<real>): (CRef, CRef) -> bool {
    (x: CRef, y: CRef) =>
      SizeKey(ca, x) > 2 && (SizeKey(ca, y) == 2 || ActKey(activity, x) < ActKey(activity, y))
  }

  /** On clauses of two or more literals, minisat's reduction order is fit for sorting. */
  lemma ReduceOrderWeak(ca: Region, activity: seq<real>)
    ensures StrictWeakOrder(ReduceOrder(ca, activity))
  {
  }

  /** The clause is the reason of some literal on the trail. */
  ghost predicate IsReason(s: State, cr: CRef) {
    exists k :: 0 <= k < |s.trail| && s.trail[k].v < |s.vd| && s.vd[s.trail[k].v].reason == cr
  }

  lemma LockedReason(s: State, cr: CRef)
    requires Struct(s) && Live(s.ca, cr)
    ensures Locked(s.ca, s.assigns, s.vd, cr) <==> IsReason(s, cr)
  {
    assert ClauseOk(s.ca[cr].lits, |s.assigns|);
    if Locked(s.ca, s.assigns, s.vd, cr) {
      var v := s.ca[cr].lits[0].v;
      assert s.trail[s.pos[v]].v == v;
    }
    if IsReason(s, cr) {
      var k :| 0 <= k < |s.trail| && s.trail[k].v < |s.vd| && s.vd[s.trail[k].v].reason == cr;
      assert ReasonAt(s.ca, s.assigns, s.pos, s.trail[k], cr, k);
    }
  }

  predicate InRegion(ca: Region, activity: seq<real>, cr: CRef) {
    0 <= cr < |ca| && cr < |activity|
  }

  /** Long clauses first, and those from the least to the most active. */
  ghost predicate LeastActiveFirst(ca: Region, activity: seq<real>, sorted: seq<CRef>) {
    && (forall i :: 0 <= i < |sorted| ==> InRegion(ca, activity, sorted[i]))
    && forall i, j ::
         0 <= i < j < |sorted| && InRegion(ca, activity, sorted[i]) && InRegion(ca, activity, sorted[j])
         && |ca[sorted[j]].lits| > 2 ==>
           |ca[sorted[i]].lits| > 2 && activity[sorted[i]] <= activity[sorted[j]]
  }

  lemma ReduceOrderLaw(ca: Region, activity: seq<real>, sorted: seq<CRef>)
    requires Sorted(sorted, ReduceOrder(ca, activity)) && |activity| == |ca|
    requires forall cr :: cr in sorted ==> Live(ca, cr) && |ca[cr].lits| >= 2
    ensures LeastActiveFirst(ca, activity, sorted)
  {
    forall i | 0 <= i < |sorted| ensures InRegion(ca, activity, sorted[i]) {
      assert sorted[i] in sorted;
    }
    forall i, j |
      0 <= i < j < |sorted| && InRegion(ca, activity, sorted[i]) && InRegion(ca, activity, sorted[j])
      && |ca[sorted[j]].lits| > 2
      ensures |ca[sorted[i]].lits| > 2 && activity[sorted[i]] <= activity[sorted[j]]
    {
      assert sorted[i] in sorted && sorted[j] in sorted;
      assert !ReduceOrder(ca, activity)(sorted[j], sorted[i]);
    }
  }

  /** Of the sorted clauses exactly these stay: binary ones, reasons, and active ones of the second half. */
  ghost predicate KeptExactly(s: State, activity: seq<real>, lim: real, sorted: seq<CRef>, kept: seq<CRef>) {
    && (forall cr :: cr in kept ==> cr in sorted)
    && forall i :: 0 <= i < |sorted| && 0 <= sorted[i] < |s.ca| && sorted[i] < |activity| ==>
         (sorted[i] in kept <==>
            || |s.ca[sorted[i]].lits| <= 2 || IsReason(s, sorted[i])
            || (i >= |sorted| / 2 && activity[sorted[i]] >= lim))
  }

  lemma ReducedLaw(s: State, activity: seq<real>, lim: real, sorted: seq<CRef>, kept: seq<CRef>)
    requires Struct(s) && |activity| == |s.ca| && forall cr :: cr in sorted ==> Live(s.ca, cr)
    requires Reduced(s.ca, s.assigns, s.vd, activity, lim, sorted, |sorted|, kept)
    ensures KeptExactly(s, activity, lim, sorted, kept)
  {
    hide Struct, Locked, IsReason;
    assert sorted[..|sorted|] == sorted;
    forall i | 0 <= i < |sorted|
      ensures Locked(s.ca, s.assigns, s.vd, sorted[i]) <==> IsReason(s, sorted[i])
    {
      assert sorted[i] in sorted;
      LockedReason(s, sorted[i]);
    }
  }

  predicate NoMoreActive(activity: seq<real>, x: CRef, y: CRef) {
    0 <= x < |activity| && 0 <= y < |activity| && activity[x] <= activity[y]
  }

  /** No clause is deleted that is more active than one that could have been deleted instead. */
  lemma LeastActiveDeleted(s: State, activity: seq<real>, lim: real, sorted: seq<CRef>, kept: seq<CRef>, x: CRef,
                           y: CRef)
    requires LeastActiveFirst(s.ca, activity, sorted) && KeptExactly(s, activity, lim, sorted, kept)
    requires x in sorted && x !in kept && y in kept && 0 <= y < |s.ca| && |s.ca[y].lits| > 2 && !IsReason(s, y)
    ensures NoMoreActive(activity, x, y)
  {
    hide IsReason;
    var i :| 0 <= i < |sorted| && sorted[i] == x;
    assert y in sorted;
    var j :| 0 <= j < |sorted| && sorted[j] == y;
  }

  /** What sorting by the reduction order and filtering amount to. */
  lemma ReduceLaws(s: State, ca: Region, activity: seq<real>, lim: real, clauses: seq<CRef>, learnts: seq<CRef>,
                   sorted: seq<CRef>, kept: seq<CRef>)
    requires Struct(s) && ListsOk(s.ca, clauses, learnts) && multiset(sorted) == multiset(learnts)
    requires |activity| == |s.ca| && Sorted(sorted, ReduceOrder(s.ca, activity))
    requires Reduced(s.ca, s.assigns, s.vd, activity, lim, sorted, |sorted|, kept)
    requires Filtering(s.ca, ca, sorted, |sorted|, kept)
    ensures LeastActiveFirst(s.ca, activity, sorted) && KeptExactly(s, activity, lim, sorted, kept)
    ensures forall cr :: cr in learnts && cr !in kept ==> !Live(ca, cr)
    ensures forall cr :: cr in kept ==> 0 <= cr < |ca| && ca[cr] == s.ca[cr]
    ensures forall x, y :: x in learnts && x !in kept && y in kept && |s.ca[y].lits| > 2 && !IsReason(s, y) ==>
              NoMoreActive(activity, x, y)
  {
    hide ReduceOrder, Sorted, Reduced, IsReason, LeastActiveFirst, KeptExactly, NoMoreActive;
    assert sorted[..|sorted|] == sorted;
    forall cr ensures cr in sorted <==> cr in learnts {
      assert cr in multiset(sorted) <==> cr in multiset(learnts);
    }
    forall cr | cr in sorted ensures Live(s.ca, cr) && |s.ca[cr].lits| >= 2 {
      assert Live(s.ca, cr) && ClauseOk(s.ca[cr].lits, |s.assigns|);
    }
    ReduceOrderLaw(s.ca, activity, sorted);
    ReducedLaw(s, activity, lim, sorted, kept);
    forall x, y | x in learnts && x !in kept && y in kept && |s.ca[y].lits| > 2 && !IsReason(s, y)
      ensures NoMoreActive(activity, x, y)
    {
      LeastActiveDeleted(s, activity, lim, sorted, kept, x, y);
    }
  }

  /** The fields glucose's `reduceDB_lt` compares. */
  datatype ClauseKey = ClauseKey(size: nat, lbd: nat, activity: real)

  predicate GlucoseLess(x: ClauseKey, y: ClauseKey) {
    if x.size > 2 && y.size == 2 then true
    else if y.size > 2 && x.size == 2 then false
    else if x.size == 2 && y.size == 2 then false
    else if x.lbd > y.lbd then true
    else if x.lbd < y.lbd then false
    else x.activity < y.activity
  }

  /** The key of a learnt clause in the list: a unit is never put there. */
  type LongKey = k: ClauseKey | k.size >= 2 witness ClauseKey(2, 0, 0.0)

  function GlucoseOrder(): (LongKey, LongKey) -> bool {
    (x: LongKey, y: LongKey) => GlucoseLess(x, y)
  }

  /** On clauses of two or more literals, glucose's reduction order is fit for sorting, too. */
  lemma GlucoseOrderWeak()
    ensures StrictWeakOrder(GlucoseOrder())
  {
    var lt := GlucoseOrder();
    forall x: LongKey, y: LongKey, z: LongKey | lt(x, z) ensures lt(x, y) || lt(y, z) {
    }
  }

  /** The bound on the size is needed: with a unit clause among them the comparison runs in circles. */
  lemma GlucoseUnitKeys()
    ensures var x, y, z := ClauseKey(3, 1, 0.0), ClauseKey(1, 2, 0.0), ClauseKey(2, 3, 0.0);
            GlucoseLess(x, z) && GlucoseLess(z, y) && GlucoseLess(y, x)
  {
  }

  /** Sort the learnt clauses as glucose's `reduceDB` does. */
  method SortByGlucoseOrder(a: array<LongKey>)
    modifies a
    ensures multiset(a[..]) == multiset(old(a[..]))
    ensures forall i, j :: 0 <= i < j < a.Length ==> GlucoseFirst(a[i], a[j])
  {
    GlucoseOrderWeak();
    hide StrictWeakOrder, Sorted, GlucoseOrder;
    Sort(a, 0, a.Length, GlucoseOrder());
    assert a[0..a.Length] == a[..] && a[..][0..a.Length] == a[..];
    assert old(a[..])[0..a.Length] == old(a[..]);
    GlucoseSorted(a[..]);
  }

  /** Where x may stand before y: long before binary, then high LBD before low, then low activity before high. */
  ghost predicate GlucoseFirst(x: ClauseKey, y: ClauseKey) {
    && (y.size > 2 ==> x.size > 2)
    && (x.size > 2 && y.size > 2 ==> x.lbd > y.lbd || (x.lbd == y.lbd && x.activity <= y.activity))
  }

  lemma GlucoseSorted(s: seq<LongKey>)
    requires Sorted(s, GlucoseOrder())
    ensures forall i, j :: 0 <= i < j < |s| ==> GlucoseFirst(s[i], s[j])
  {
    forall i, j | 0 <= i < j < |s| ensures GlucoseFirst(s[i], s[j]) {
      assert !GlucoseOrder()(s[j], s[i]);
    }
  }

  /** Reducing keeps the members of the list, in another order. */
  lemma SortedLists(ca: Region, clauses: seq<CRef>, learnts: seq<CRef>, sorted: seq<CRef>)
    requires ListsOk(ca, clauses, learnts) && multiset(sorted) == multiset(learnts)
    ensures ListsOk(ca, clauses, sorted)
  {
    forall cr ensures cr in sorted <==> cr in learnts {
      assert cr in multiset(sorted) <==> cr in sorted;
      assert cr in multiset(learnts) <==> cr in learnts;
    }
    DistinctSame(learnts, sorted);
  }
}
