/** Deleting clauses. */
module Removal {
  import opened Sat
  import opened SolverState
  import opened Propagation
  import opened Meaning
  import opened WatchClean

  /** The clause is the reason of its own first literal. */
  predicate Locked(ca: Region, assigns: seq<LBool>, vd: seq<VarData>, cr: CRef) {
    && 0 <= cr < |ca| && |ca[cr].lits| > 0
    && IsTrue(assigns, ca[cr].lits[0])
    && ca[cr].lits[0].v < |vd| && vd[ca[cr].lits[0].v].reason == cr
  }

  function Deleted(ca: Region, cr: CRef): Region
    requires 0 <= cr < |ca|
  {
    ca[cr := ca[cr].(mark := 1)]
  }

  /** The state after `removeClause(cr)`. */
  function Removed(s: State, cr: CRef): State
    requires 0 <= cr < |s.ca|
  {
    var vd := if Locked(s.ca, s.assigns, s.vd, cr)
              then s.vd[s.ca[cr].lits[0].v := s.vd[s.ca[cr].lits[0].v].(reason := CREF_UNDEF)]
              else s.vd;
    s.(ca := Deleted(s.ca, cr), vd := vd)
  }

  /** No reason dangles: a removed clause is nobody's reason any more. */
  lemma RemoveReasons(s: State, cr: CRef)
    requires Struct(s) && Live(s.ca, cr)
    requires s.lim == [] || !Locked(s.ca, s.assigns, s.vd, cr)
    ensures var s' := Removed(s, cr);
            ReasonOk(s'.ca, s'.assigns, s'.trail, s'.lim, s'.vd, s'.pos) && LevelOk(s'.trail, s'.lim, s'.vd)
  {
    var s' := Removed(s, cr);
    forall i | 0 <= i < |s'.trail|
      ensures
        && s'.trail[i].v < |s'.vd|
        && var d := s'.vd[s'.trail[i].v];
        if d.reason == CREF_UNDEF then
          d.level == 0 || (d.level <= |s'.lim| && s'.lim[d.level - 1] == i)
        else
          ReasonAt(s'.ca, s'.assigns, s'.pos, s'.trail[i], d.reason, i)
    {
      var v := s.trail[i].v;
      assert AtLevel(s.lim, s.vd[v].level, i);
      if s.vd[v].reason != CREF_UNDEF {
        assert ReasonAt(s.ca, s.assigns, s.pos, s.trail[i], s.vd[v].reason, i);
      }
    }
    forall i | 0 <= i < |s'.trail|
      ensures s'.trail[i].v < |s'.vd| && AtLevel(s'.lim, s'.vd[s'.trail[i].v].level, i)
    {
      assert AtLevel(s.lim, s.vd[s.trail[i].v].level, i);
    }
  }

  lemma RemoveWatches(ca: Region, watches: Watches, cr: CRef)
    requires WatchSound(ca, watches) && WatchComplete(ca, watches) && Live(ca, cr)
    ensures WatchSound(Deleted(ca, cr), watches) && WatchComplete(Deleted(ca, cr), watches)
  {
    var cb := Deleted(ca, cr);
    forall p, j | p in watches && 0 <= j < |watches[p]| ensures WatcherOk(cb, p, watches[p][j]) {
      assert WatcherOk(ca, p, watches[p][j]);
    }
    forall cx, w | Live(cb, cx) && 0 <= w < 2 && w < |cb[cx].lits|
      ensures Neg(cb[cx].lits[w]) in watches && HasWatch(watches[Neg(cb[cx].lits[w])], cx, 0)
    {
      assert Live(ca, cx);
    }
  }

  lemma RemoveStruct(s: State, cr: CRef)
    requires Struct(s) && Live(s.ca, cr)
    requires s.lim == [] || !Locked(s.ca, s.assigns, s.vd, cr)
    ensures Struct(Removed(s, cr))
    ensures |s.ca[cr].lits| >= 2 && Neg(s.ca[cr].lits[0]) in s.watches && Neg(s.ca[cr].lits[1]) in s.watches
  {
    RemoveReasons(s, cr);
    RemoveWatches(s.ca, s.watches, cr);
    var cb := Deleted(s.ca, cr);
    forall cx | Live(cb, cx) ensures ClauseOk(cb[cx].lits, |s.assigns|) {
      assert Live(s.ca, cx);
    }
    assert ClauseOk(s.ca[cr].lits, |s.assigns|);
  }

  lemma RemoveDirty(s: State, cr: CRef, dirty: set<Lit>, dirties: seq<Lit>, dirty': set<Lit>, dirties': seq<Lit>)
    requires Struct(s) && Live(s.ca, cr) && DirtyOk(s.ca, s.watches, dirty, dirties)
    requires var c := s.ca[cr].lits;
             && |c| >= 2
             && Neg(c[0]) in s.watches && Neg(c[1]) in s.watches
             && dirty' == dirty + {Neg(c[0]), Neg(c[1])}
             && (forall p :: p in dirty' - dirty ==> p in dirties')
             && (forall p :: p in dirties ==> p in dirties')
             && (forall p :: p in dirties' ==> p in dirties || p in dirty')
    ensures DirtyOk(Deleted(s.ca, cr), s.watches, dirty', dirties')
  {
    var cb := Deleted(s.ca, cr);
    var c := s.ca[cr].lits;
    forall p, j | p in s.watches && 0 <= j < |s.watches[p]| && !Live(cb, s.watches[p][j].cref)
      ensures p in dirty'
    {
      assert WatcherOk(s.ca, p, s.watches[p][j]);
      if s.watches[p][j].cref == cr {
        assert Neg(Neg(p)) == p;
      }
    }
  }

  lemma RemoveWatchInv(s: State, cr: CRef, q: nat)
    requires Struct(s) && Live(s.ca, cr) && WatchInv(s.ca, s.watches, s.assigns, s.vd, s.pos, q)
    ensures var s' := Removed(s, cr); WatchInv(s'.ca, s'.watches, s'.assigns, s'.vd, s'.pos, q)
  {
    var s' := Removed(s, cr);
    assert TrueKept(s.assigns, s.vd, s'.assigns, s'.vd);
    hide Struct, TrueKept, Excused;
    forall cx, w: nat | Live(s'.ca, cx) && FalseWatch(s'.ca[cx].lits, w, s'.assigns, s'.vd, s'.pos, q)
      ensures Excused(s'.ca, s'.watches, s'.assigns, s'.vd, cx, w, s'.vd[s'.ca[cx].lits[w].v].level)
    {
      assert FalseWatch(s.ca[cx].lits, w, s.assigns, s.vd, s.pos, q);
      ExcusedSameLists(s, cx, w, s.vd[s.ca[cx].lits[w].v].level, s');
    }
  }

  /** A learnt clause, or one satisfied at level 0, adds nothing to the meaning of the database. */
  lemma RemoveMeans(f: Formula, s: State, cr: CRef)
    requires Struct(s) && Means(f, s) && Live(s.ca, cr)
    requires s.ca[cr].learnt || exists x :: x in s.ca[cr].lits && x in Facts(s)
    ensures Means(f, Removed(s, cr))
  {
    var s' := Removed(s, cr);
    assert Facts(s') == Facts(s);
    forall cx | Live(s'.ca, cx) ensures Entails(f, s'.ca[cx].lits) {
      assert Live(s.ca, cx);
    }
    forall a: Model | SatDb(a, s'.ca, Facts(s)) ensures SatAll(a, f) {
      forall cx | Live(s.ca, cx) && !s.ca[cx].learnt ensures SatClause(a, s.ca[cx].lits) {
        if cx != cr {
          assert Live(s'.ca, cx);
        }
      }
      assert SatDb(a, s.ca, Facts(s));
    }
  }

  /** A true literal at level 0 is a fact. */
  lemma TrueFact(s: State, x: Lit)
    requires Struct(s) && s.lim == [] && IsTrue(s.assigns, x)
    ensures x in Facts(s)
  {
    var i := s.pos[x.v];
    assert s.trail[i].v == x.v;
    assert Facts(s)[i] == x;
  }
}
