/** Lazy deletion of watchers. */
module WatchClean {
  import opened Sat
  import opened SolverState
  import opened Propagation

  /** The watchers of clauses that are not deleted, in order. */
  function Keep(ca: Region, ws: seq<Watcher>): (r: seq<Watcher>)
  {
    if ws == [] then []
    else
      var w := ws[|ws| - 1];
      Keep(ca, ws[..|ws| - 1]) + if Live(ca, w.cref) then [w] else []
  }

  lemma {:induction false} KeepMembers(ca: Region, ws: seq<Watcher>)
    ensures forall w :: w in Keep(ca, ws) <==> w in ws && Live(ca, w.cref)
  {
    if ws != [] {
      var n := |ws| - 1;
      KeepMembers(ca, ws[..n]);
      assert ws == ws[..n] + [ws[n]];
    }
  }

  ghost predicate Distinct(ws: seq<Watcher>) {
    forall i, j :: 0 <= i < j < |ws| ==> ws[i].cref != ws[j].cref
  }

  lemma {:induction false} KeepDistinct(ca: Region, ws: seq<Watcher>)
    requires Distinct(ws)
    ensures Distinct(Keep(ca, ws))
  {
    if ws != [] {
      var n := |ws| - 1;
      KeepDistinct(ca, ws[..n]);
      KeepMembers(ca, ws[..n]);
      var r := Keep(ca, ws[..n]);
      forall i | 0 <= i < |r| ensures r[i].cref != ws[n].cref {
        assert r[i] in ws[..n];
      }
    }
  }

  lemma {:induction false} KeepAll(ca: Region, ws: seq<Watcher>)
    requires forall i :: 0 <= i < |ws| ==> Live(ca, ws[i].cref)
    ensures Keep(ca, ws) == ws
  {
    if ws != [] {
      var n := |ws| - 1;
      KeepAll(ca, ws[..n]);
      assert Keep(ca, ws) == Keep(ca, ws[..n]) + [ws[n]];
    }
  }

  ghost predicate Cleaned(ca: Region, watches: Watches, watches': Watches) {
    watches'.Keys == watches.Keys && forall p :: p in watches ==> watches'[p] == Keep(ca, watches[p])
  }

  lemma CleanedSoundAt(ca: Region, watches: Watches, watches': Watches, p: Lit, j: nat)
    requires WatchSound(ca, watches) && Cleaned(ca, watches, watches')
    requires p in watches' && j < |watches'[p]|
    ensures WatcherOk(ca, p, watches'[p][j]) && Live(ca, watches'[p][j].cref)
  {
    hide WatcherOk;
    KeepMembers(ca, watches[p]);
    assert watches'[p][j] in watches[p];
  }

  lemma KeepHas(ca: Region, ws: seq<Watcher>, cr: CRef)
    requires HasWatch(ws, cr, 0) && Live(ca, cr)
    ensures HasWatch(Keep(ca, ws), cr, 0)
  {
    var i :| 0 <= i < |ws| && ws[i].cref == cr;
    KeepMembers(ca, ws);
    assert ws[i] in Keep(ca, ws);
  }

  /** Cleaning every list drops exactly the deleted watchers and keeps the lists in order. */
  lemma CleanedLists(ca: Region, watches: Watches, watches': Watches)
    requires WatchSound(ca, watches) && WatchComplete(ca, watches) && Cleaned(ca, watches, watches')
    ensures WatchLists(ca, watches')
  {
    forall p, j | p in watches' && 0 <= j < |watches'[p]|
      ensures WatcherOk(ca, p, watches'[p][j]) && Live(ca, watches'[p][j].cref)
    {
      CleanedSoundAt(ca, watches, watches', p, j);
    }
    forall p | p in watches' ensures Distinct(watches'[p]) {
      assert Distinct(watches[p]);
      KeepDistinct(ca, watches[p]);
    }
    forall cr, w | Live(ca, cr) && 0 <= w < 2 && w < |ca[cr].lits|
      ensures Neg(ca[cr].lits[w]) in watches' && HasWatch(watches'[Neg(ca[cr].lits[w])], cr, 0)
    {
      KeepHas(ca, watches[Neg(ca[cr].lits[w])], cr);
    }
  }

  /** Only dirty lists hold watchers of deleted clauses, and every dirty literal is queued. */
  ghost predicate DirtyOk(ca: Region, watches: Watches, dirty: set<Lit>, dirties: seq<Lit>) {
    && (forall p :: p in dirty ==> p in dirties && p in watches)
    && (forall p :: p in dirties ==> p in watches)
    && (forall p, j :: p in watches && 0 <= j < |watches[p]| && !Live(ca, watches[p][j].cref) ==> p in dirty)
  }

  lemma CleanedStruct(s: State, watches: Watches)
    requires Struct(s) && Cleaned(s.ca, s.watches, watches)
    ensures Struct(s.(watches := watches)) && NoDeleted(s.ca, watches)
  {
    CleanedLists(s.ca, s.watches, watches);
  }

  lemma CleanDirty(ca: Region, watches: Watches)
    requires NoDeleted(ca, watches)
    ensures DirtyOk(ca, watches, {}, [])
  {
  }

  lemma StructBound(s: State)
    requires Struct(s)
    ensures |s.trail| <= |s.assigns|
  {
    TrailBound(s.assigns, s.trail, s.pos);
  }

  lemma WatchInvLess(s: State, q: nat, r: nat)
    requires WatchInv(s.ca, s.watches, s.assigns, s.vd, s.pos, q) && r <= q
    ensures WatchInv(s.ca, s.watches, s.assigns, s.vd, s.pos, r)
  {
  }

  /** Cleaning drops only watchers of deleted clauses, so every excuse stays. */
  lemma CleanedWatchInv(s: State, watches: Watches, q: nat)
    requires WatchInv(s.ca, s.watches, s.assigns, s.vd, s.pos, q) && Cleaned(s.ca, s.watches, watches)
    ensures WatchInv(s.ca, watches, s.assigns, s.vd, s.pos, q)
  {
    var s' := s.(watches := watches);
    forall cr, w: nat | Live(s.ca, cr) && FalseWatch(s.ca[cr].lits, w, s.assigns, s.vd, s.pos, q)
      ensures Excused(s.ca, watches, s.assigns, s.vd, cr, w, s.vd[s.ca[cr].lits[w].v].level)
    {
      var p := Neg(s.ca[cr].lits[w]);
      if p in s.watches {
        KeepMembers(s.ca, s.watches[p]);
      }
      ExcusedKept(s, cr, w, s.vd[s.ca[cr].lits[w].v].level, s', cr);
    }
  }

  /** Part way through cleaning: the lists no longer dirty are filtered, the others untouched and queued from i on. */
  ghost predicate CleanProgress(ca: Region, w0: Watches, watches: Watches, d0: set<Lit>, dirty: set<Lit>,
                                dirties: seq<Lit>, i: nat) {
    && i <= |dirties|
    && watches.Keys == w0.Keys
    && dirty <= d0
    && (forall p :: p in w0 ==> watches[p] == if p in d0 && p !in dirty then Keep(ca, w0[p]) else w0[p])
    && (forall p :: p in dirty ==> p in w0 && p in dirties[i..])
  }

  lemma CleanBegin(ca: Region, w0: Watches, d0: set<Lit>, dirties: seq<Lit>)
    requires DirtyOk(ca, w0, d0, dirties)
    ensures CleanProgress(ca, w0, w0, d0, d0, dirties, 0)
  {
    assert dirties[0..] == dirties;
  }

  lemma CleanStep(ca: Region, w0: Watches, watches: Watches, d0: set<Lit>, dirty: set<Lit>, dirties: seq<Lit>, i: nat)
    requires CleanProgress(ca, w0, watches, d0, dirty, dirties, i) && i < |dirties|
    ensures var p := dirties[i];
            if p in dirty then
              && p in watches
              && CleanProgress(ca, w0, watches[p := Keep(ca, watches[p])], d0, dirty - {p}, dirties, i + 1)
            else CleanProgress(ca, w0, watches, d0, dirty, dirties, i + 1)
  {
    assert dirties[i..] == [dirties[i]] + dirties[i + 1..];
  }

  lemma CleanFinished(ca: Region, w0: Watches, watches: Watches, d0: set<Lit>, dirty: set<Lit>, dirties: seq<Lit>)
    requires CleanProgress(ca, w0, watches, d0, dirty, dirties, |dirties|) && DirtyOk(ca, w0, d0, dirties)
    ensures Cleaned(ca, w0, watches) && dirty == {}
  {
    forall p | p in w0 ensures watches[p] == Keep(ca, w0[p]) {
      if p !in d0 {
        KeepAll(ca, w0[p]);
      }
    }
  }
}
