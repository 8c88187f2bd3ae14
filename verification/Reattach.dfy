/** What shortening a watched clause in place, as the preprocessor does, means for the watch invariant. */
module Reattachment {
  import opened Sat
  import opened SolverState
  import opened Resolution
  import opened WatchClean

  /** Take the watcher of cr out of a list. */
  function Unwatched(ws: seq<Watcher>, cr: CRef): seq<Watcher> {
    if ws == [] then [] else if ws[0].cref == cr then ws[1..] else [ws[0]] + Unwatched(ws[1..], cr)
  }

  lemma {:induction false} UnwatchedMember(ws: seq<Watcher>, cr: CRef)
    requires Distinct(ws)
    ensures forall w :: w in Unwatched(ws, cr) <==> w in ws && w.cref != cr
  {
    if ws != [] {
      assert ws == [ws[0]] + ws[1..];
      if ws[0].cref != cr {
        UnwatchedMember(ws[1..], cr);
      }
    }
  }

  /** A clause that can lose the literal l and still have two literals to watch. */
  ghost predicate Shortenable(s: State, cr: CRef, l: Lit) {
    && WatchSound(s.ca, s.watches) && Live(s.ca, cr)
    && var c := s.ca[cr].lits;
    && |c| >= 3 && NoDup(c) && l in c && forall p :: p in c ==> Neg(p) in s.watches
  }

  lemma {:induction false} ErasedLits(c: seq<Lit>, l: Lit)
    requires NoDup(c) && l in c
    ensures NoDup(Erased(c, l)) && |Erased(c, l)| == |c| - 1 && forall p :: p in Erased(c, l) <==> p in c && p != l
  {
    ErasedMember(c, l);
    if c[0] != l {
      ErasedLits(c[1..], l);
      var d := Erased(c[1..], l);
      assert c[0] !in d && Erased(c, l) == [c[0]] + d;
    } else {
      assert Erased(c, l) == c[1..];
    }
  }

  function Watched(watches: Watches, p: Lit, w: Watcher): Watches
    requires p in watches
  {
    watches[p := watches[p] + [w]]
  }

  /** Detach cr, take l out of it, and attach it again by the two literals that now come first. */
  function Reattached(s: State, cr: CRef, l: Lit): State
    requires Shortenable(s, cr, l)
  {
    var c := s.ca[cr].lits;
    var d := Erased(c, l);
    ErasedLits(c, l);
    assert c[0] in c && c[1] in c && d[0] in d && d[1] in d;
    var w0 := s.watches[Neg(c[0]) := Unwatched(s.watches[Neg(c[0])], cr)];
    var w1 := w0[Neg(c[1]) := Unwatched(w0[Neg(c[1])], cr)];
    s.(ca := s.ca[cr := s.ca[cr].(lits := d)],
       watches := Watched(Watched(w1, Neg(d[0]), Watcher(cr, d[1])), Neg(d[1]), Watcher(cr, d[0])))
  }

  /** The watchers afterwards: those of the other clauses, and the two new ones. */
  lemma ReattachedWatchers(s: State, cr: CRef, l: Lit, p: Lit, w: Watcher)
    requires Shortenable(s, cr, l) && p in s.watches
    ensures p in Reattached(s, cr, l).watches && |Erased(s.ca[cr].lits, l)| >= 2
    ensures var d := Erased(s.ca[cr].lits, l);
            w in Reattached(s, cr, l).watches[p] <==>
              || (w in s.watches[p] && w.cref != cr)
              || (p == Neg(d[0]) && w == Watcher(cr, d[1]))
              || (p == Neg(d[1]) && w == Watcher(cr, d[0]))
  {
    var c := s.ca[cr].lits;
    var d := Erased(c, l);
    ErasedLits(c, l);
    assert c[0] in c && c[1] in c && d[0] in d && d[1] in d && d[0] != d[1];
    assert Neg(Neg(c[0])) == c[0] && Neg(Neg(c[1])) == c[1] && Neg(Neg(d[0])) == d[0] && Neg(Neg(d[1])) == d[1];
    assert Distinct(s.watches[p]);
    UnwatchedMember(s.watches[p], cr);
    if w in s.watches[p] && w.cref == cr {
      var j :| 0 <= j < |s.watches[p]| && s.watches[p][j] == w;
      assert WatcherOk(s.ca, p, s.watches[p][j]);
      assert Neg(Neg(p)) == p;
    }
  }

  /** A false new watch is excused by the other new watch being true. */
  ghost predicate WatchesSettled(s: State, d: seq<Lit>, q: nat) {
    forall w: nat :: |d| >= 2 && FalseWatch(d, w, s.assigns, s.vd, s.pos, q) ==>
      TrueAt(s.assigns, s.vd, d[1 - w], s.vd[d[w].v].level)
  }

  lemma ReattachedSelf(s: State, cr: CRef, l: Lit, w: nat, k: nat)
    requires Shortenable(s, cr, l) && w < 2
    ensures var d := Erased(s.ca[cr].lits, l); |d| >= 2
    ensures var s', d := Reattached(s, cr, l), Erased(s.ca[cr].lits, l);
            Excused(s'.ca, s'.watches, s'.assigns, s'.vd, cr, w, k) <==> TrueAt(s.assigns, s.vd, d[1 - w], k)
  {
    var s', d := Reattached(s, cr, l), Erased(s.ca[cr].lits, l);
    ErasedLits(s.ca[cr].lits, l);
    assert d[w] in d && Neg(Neg(d[0])) == d[0] && Neg(Neg(d[1])) == d[1];
    forall x | Watcher(cr, x) in s'.watches[Neg(d[w])] ensures x == d[1 - w] {
      ReattachedWatchers(s, cr, l, Neg(d[w]), Watcher(cr, x));
    }
  }

  lemma ReattachedOther(s: State, cr: CRef, l: Lit, cx: CRef, w: nat, k: nat)
    requires Shortenable(s, cr, l) && Excused(s.ca, s.watches, s.assigns, s.vd, cx, w, k) && cx != cr
    ensures var s' := Reattached(s, cr, l); Excused(s'.ca, s'.watches, s'.assigns, s'.vd, cx, w, k)
  {
    var s' := Reattached(s, cr, l);
    var p := Neg(s.ca[cx].lits[w]);
    if p in s.watches {
      ReattachedWatchers(s, cr, l, p, Watcher(cx, p));
      forall x | Watcher(cx, x) in s.watches[p] ensures Watcher(cx, x) in s'.watches[p] {
        ReattachedWatchers(s, cr, l, p, Watcher(cx, x));
      }
    }
    ExcusedKept(s, cx, w, k, s', cx);
  }

  /**
   * Strengthening keeps the watch invariant exactly when each of the two literals that now come first is not false, or
   * the other one is true at a level no higher.
   */
  lemma ReattachExact(s: State, cr: CRef, l: Lit, q: nat)
    requires Shortenable(s, cr, l) && WatchInv(s.ca, s.watches, s.assigns, s.vd, s.pos, q)
    ensures var s' := Reattached(s, cr, l);
            WatchInv(s'.ca, s'.watches, s'.assigns, s'.vd, s'.pos, q) <==>
              WatchesSettled(s, Erased(s.ca[cr].lits, l), q)
  {
    var s', d := Reattached(s, cr, l), Erased(s.ca[cr].lits, l);
    ErasedLits(s.ca[cr].lits, l);
    assert Live(s'.ca, cr) && s'.ca[cr].lits == d;
    forall w: nat | FalseWatch(d, w, s.assigns, s.vd, s.pos, q)
      ensures Excused(s'.ca, s'.watches, s'.assigns, s'.vd, cr, w, s.vd[d[w].v].level) <==>
                TrueAt(s.assigns, s.vd, d[1 - w], s.vd[d[w].v].level)
    {
      ReattachedSelf(s, cr, l, w, s.vd[d[w].v].level);
    }
    forall cx, w: nat | cx != cr && Live(s'.ca, cx) && FalseWatch(s'.ca[cx].lits, w, s.assigns, s.vd, s.pos, q)
      ensures Excused(s'.ca, s'.watches, s'.assigns, s'.vd, cx, w, s.vd[s'.ca[cx].lits[w].v].level)
    {
      assert Live(s.ca, cx) && s.ca[cx] == s'.ca[cx];
      ReattachedOther(s, cr, l, cx, w, s.vd[s.ca[cx].lits[w].v].level);
    }
  }

  // ---------------------------------------------------------------- where it breaks

  function LitsBelow(n: nat): (r: set<Lit>)
    ensures forall p :: p in r <==> p.v < n
  {
    if n == 0 then {} else LitsBelow(n - 1) + {Lit(n - 1, false), Lit(n - 1, true)}
  }

  /** The clause x0 x1 x2 x3, watched by x0 and x1, when x2 is false at level 0. */
  function BadClause(): seq<Lit> {
    [Lit(0, false), Lit(1, false), Lit(2, false), Lit(3, false)]
  }

  function BadList(p: Lit): seq<Watcher> {
    if p == Lit(0, true) then [Watcher(0, Lit(1, false))]
    else if p == Lit(1, true) then [Watcher(0, Lit(0, false))]
    else []
  }

  ghost function BadState(): State {
    State([Clause(BadClause(), false, 0)], map p | p in LitsBelow(4) :: BadList(p),
          [Undef, Undef, False, Undef], [Lit(2, true)], [], seq(4, _ => VarData(CREF_UNDEF, 0)), seq(4, _ => 0))
  }

  lemma BadWatches()
    ensures var s := BadState(); WatchSound(s.ca, s.watches) && WatchComplete(s.ca, s.watches)
  {
    var s := BadState();
    forall p, j | p in s.watches && 0 <= j < |s.watches[p]| ensures WatcherOk(s.ca, p, s.watches[p][j]) {
      assert p == Lit(0, true) || p == Lit(1, true);
    }
    assert s.watches[Lit(0, true)][0].cref == 0 && s.watches[Lit(1, true)][0].cref == 0;
  }

  lemma BadStruct()
    ensures Struct(BadState())
  {
    BadWatches();
    var s := BadState();
    hide WatchSound, WatchComplete, BadList;
    assert TrailOk(s.assigns, s.trail, s.pos);
    assert forall cr :: Live(s.ca, cr) ==> cr == 0;
    assert ClauseOk(BadClause(), 4);
  }

  lemma BadShortenable()
    ensures Shortenable(BadState(), 0, Lit(0, false)) && Erased(BadClause(), Lit(0, false)) == BadClause()[1..]
  {
    BadWatches();
    hide WatchSound, WatchComplete, BadList;
  }

  /** Neither watched literal is false. */
  lemma BadInvariant()
    ensures var s := BadState(); WatchInv(s.ca, s.watches, s.assigns, s.vd, s.pos, |s.trail|)
  {
    hide Excused, BadList;
  }

  lemma BadUnsettled()
    ensures !WatchesSettled(BadState(), BadClause()[1..], 1)
  {
    hide BadList;
    var s, d := BadState(), BadClause()[1..];
    assert FalseWatch(d, 1, s.assigns, s.vd, s.pos, 1);
    assert d[0] == Lit(1, false) && s.assigns[1] == Undef;
  }

  /** Strengthening by x0 leaves x1 and the false x2 in front, and everything has been propagated. */
  lemma ReattachBreaks()
    ensures var s, x := BadState(), Lit(0, false);
            && Struct(s) && WatchInv(s.ca, s.watches, s.assigns, s.vd, s.pos, |s.trail|) && Shortenable(s, 0, x)
            && var s' := Reattached(s, 0, x);
            !WatchInv(s'.ca, s'.watches, s'.assigns, s'.vd, s'.pos, |s.trail|)
  {
    hide Struct, Shortenable, WatchInv, WatchesSettled, BadList, Reattached, Erased;
    BadStruct();
    BadShortenable();
    BadInvariant();
    BadUnsettled();
    ReattachExact(BadState(), 0, Lit(0, false), 1);
  }
}
