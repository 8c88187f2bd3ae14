/** The copying collector: moving clauses to a new region and renaming every reference. */
module Relocation {
  import opened Sat
  import opened SolverState
  import opened Propagation
  import opened Meaning
  import opened WatchClean
  import opened FinalAnalysis
  import opened SearchState
  import opened Removal
  import opened Reduction

  /**
   * The clauses moved so far. fwd holds the forwarding reference of each old clause (CREF_UNDEF while it
   * has not moved), to is the new region, and origin names the old clause behind each new one.
   */
  ghost predicate Moved(ca: Region, fwd: seq<CRef>, to: Region, origin: seq<CRef>) {
    && |fwd| == |ca| && |origin| == |to|
    && (forall x :: 0 <= x < |fwd| && fwd[x] != CREF_UNDEF ==>
          0 <= fwd[x] < |to| && to[fwd[x]] == ca[x] && origin[fwd[x]] == x)
    && (forall k :: 0 <= k < |to| ==> 0 <= origin[k] < |ca| && fwd[origin[k]] == k)
  }

  predicate HasMoved(fwd: seq<CRef>, x: CRef) {
    0 <= x < |fwd| && fwd[x] != CREF_UNDEF
  }

  /** The new reference for x. */
  function Renamed(fwd: seq<CRef>, x: CRef): CRef {
    if 0 <= x < |fwd| then fwd[x] else CREF_UNDEF
  }

  /** Different clauses stay different, equal references stay equal, and nothing about a clause changes. */
  lemma MovedFaithful(ca: Region, fwd: seq<CRef>, to: Region, origin: seq<CRef>, x: CRef, y: CRef)
    requires Moved(ca, fwd, to, origin) && HasMoved(fwd, x) && HasMoved(fwd, y)
    ensures 0 <= Renamed(fwd, x) < |to| && to[Renamed(fwd, x)] == ca[x]
    ensures Renamed(fwd, x) == Renamed(fwd, y) <==> x == y
  {
  }

  /** Forwarding references are never changed once set. */
  ghost predicate Extends(fwd: seq<CRef>, fwd': seq<CRef>) {
    |fwd| == |fwd'| && forall x :: 0 <= x < |fwd| && fwd[x] != CREF_UNDEF ==> fwd'[x] == fwd[x]
  }

  lemma MoveStep(ca: Region, fwd: seq<CRef>, to: Region, origin: seq<CRef>, x: CRef)
    requires Moved(ca, fwd, to, origin) && 0 <= x < |ca| && fwd[x] == CREF_UNDEF
    ensures Moved(ca, fwd[x := |to|], to + [ca[x]], origin + [x])
    ensures Extends(fwd, fwd[x := |to|]) && HasMoved(fwd[x := |to|], x)
  {
  }

  function RenameAll(fwd: seq<CRef>, cs: seq<CRef>): seq<CRef> {
    seq(|cs|, i requires 0 <= i < |cs| => Renamed(fwd, cs[i]))
  }

  function RenameWatchers(fwd: seq<CRef>, ws: seq<Watcher>): seq<Watcher> {
    seq(|ws|, i requires 0 <= i < |ws| => Watcher(Renamed(fwd, ws[i].cref), ws[i].blocker))
  }

  ghost predicate AllMoved(fwd: seq<CRef>, cs: seq<CRef>) {
    forall i :: 0 <= i < |cs| ==> HasMoved(fwd, cs[i])
  }

  ghost predicate WatchersMoved(fwd: seq<CRef>, ws: seq<Watcher>) {
    forall i :: 0 <= i < |ws| ==> HasMoved(fwd, ws[i].cref)
  }

  /** Every watch list renamed. */
  ghost predicate WatchesRenamed(fwd: seq<CRef>, watches: Watches, watches': Watches) {
    && watches'.Keys == watches.Keys
    && forall p :: p in watches ==> WatchersMoved(fwd, watches[p]) && watches'[p] == RenameWatchers(fwd, watches[p])
  }

  /** The reasons of the literals on the trail renamed; nothing else about the variables changed. */
  ghost predicate ReasonsRenamed(fwd: seq<CRef>, trail: seq<Lit>, vd: seq<VarData>, vd': seq<VarData>) {
    && |vd'| == |vd|
    && (forall v :: 0 <= v < |vd| ==> vd'[v].level == vd[v].level)
    && (forall i :: 0 <= i < |trail| && trail[i].v < |vd| ==>
          var r := vd[trail[i].v].reason;
          if r == CREF_UNDEF then vd'[trail[i].v].reason == CREF_UNDEF
          else HasMoved(fwd, r) && vd'[trail[i].v].reason == fwd[r])
  }

  /** s' is s with every reference renamed to the new region. */
  ghost predicate Relocated(s: State, s': State, fwd: seq<CRef>, origin: seq<CRef>) {
    && Moved(s.ca, fwd, s'.ca, origin)
    && WatchesRenamed(fwd, s.watches, s'.watches)
    && ReasonsRenamed(fwd, s.trail, s.vd, s'.vd)
    && s'.assigns == s.assigns && s'.trail == s.trail && s'.lim == s.lim && s'.pos == s.pos
  }

  /** Every live clause is watched, so every live clause moves. */
  lemma LiveMoved(s: State, s': State, fwd: seq<CRef>, origin: seq<CRef>, cr: CRef)
    requires Struct(s) && Relocated(s, s', fwd, origin) && Live(s.ca, cr)
    ensures HasMoved(fwd, cr) && Live(s'.ca, fwd[cr]) && s'.ca[fwd[cr]] == s.ca[cr]
  {
    assert ClauseOk(s.ca[cr].lits, |s.assigns|);
    var p := Neg(s.ca[cr].lits[0]);
    assert HasWatch(s.watches[p], cr, 0);
    var j :| 0 <= j < |s.watches[p]| && s.watches[p][j].cref == cr;
    assert WatchersMoved(fwd, s.watches[p]);
  }

  lemma RelocatedReasons(s: State, s': State, fwd: seq<CRef>, origin: seq<CRef>)
    requires Struct(s) && Relocated(s, s', fwd, origin)
    ensures ReasonOk(s'.ca, s'.assigns, s'.trail, s'.lim, s'.vd, s'.pos)
    ensures LevelOk(s'.trail, s'.lim, s'.vd)
  {
    forall i | 0 <= i < |s'.trail|
      ensures
        && s'.trail[i].v < |s'.vd|
        && AtLevel(s'.lim, s'.vd[s'.trail[i].v].level, i)
        && var d := s'.vd[s'.trail[i].v];
        if d.reason == CREF_UNDEF then
          d.level == 0 || (d.level <= |s'.lim| && s'.lim[d.level - 1] == i)
        else
          ReasonAt(s'.ca, s'.assigns, s'.pos, s'.trail[i], d.reason, i)
    {
      var d := s.vd[s.trail[i].v];
      assert AtLevel(s.lim, d.level, i);
      if d.reason != CREF_UNDEF {
        assert ReasonAt(s.ca, s.assigns, s.pos, s.trail[i], d.reason, i);
        assert s'.ca[fwd[d.reason]] == s.ca[d.reason];
      }
    }
  }

  lemma RelocatedSound(s: State, s': State, fwd: seq<CRef>, origin: seq<CRef>)
    requires Struct(s) && Relocated(s, s', fwd, origin) && NoDeleted(s.ca, s.watches)
    ensures WatchSound(s'.ca, s'.watches) && NoDeleted(s'.ca, s'.watches)
  {
    forall p, j | p in s'.watches && 0 <= j < |s'.watches[p]|
      ensures WatcherOk(s'.ca, p, s'.watches[p][j]) && Live(s'.ca, s'.watches[p][j].cref)
    {
      assert WatcherOk(s.ca, p, s.watches[p][j]) && Live(s.ca, s.watches[p][j].cref);
      assert WatchersMoved(fwd, s.watches[p]);
      assert HasMoved(fwd, s.watches[p][j].cref);
    }
    forall p, i, j | p in s'.watches && 0 <= i < j < |s'.watches[p]|
      ensures s'.watches[p][i].cref != s'.watches[p][j].cref
    {
      assert WatchersMoved(fwd, s.watches[p]);
      assert s.watches[p][i].cref != s.watches[p][j].cref;
      assert HasMoved(fwd, s.watches[p][i].cref) && HasMoved(fwd, s.watches[p][j].cref);
      MovedFaithful(s.ca, fwd, s'.ca, origin, s.watches[p][i].cref, s.watches[p][j].cref);
    }
  }

  lemma RelocatedComplete(s: State, s': State, fwd: seq<CRef>, origin: seq<CRef>)
    requires Struct(s) && Relocated(s, s', fwd, origin)
    ensures WatchComplete(s'.ca, s'.watches)
  {
    forall k, w | Live(s'.ca, k) && 0 <= w < 2 && w < |s'.ca[k].lits|
      ensures Neg(s'.ca[k].lits[w]) in s'.watches && HasWatch(s'.watches[Neg(s'.ca[k].lits[w])], k, 0)
    {
      var x := origin[k];
      assert fwd[x] == k && s'.ca[k] == s.ca[x] && Live(s.ca, x);
      var p := Neg(s.ca[x].lits[w]);
      assert HasWatch(s.watches[p], x, 0);
      var j :| 0 <= j < |s.watches[p]| && s.watches[p][j].cref == x;
      assert s'.watches[p][j].cref == k;
    }
  }

  /** Collection keeps the structural invariant: no reference dangles. */
  lemma RelocatedStruct(s: State, s': State, fwd: seq<CRef>, origin: seq<CRef>)
    requires Struct(s) && Relocated(s, s', fwd, origin) && NoDeleted(s.ca, s.watches)
    ensures Struct(s') && NoDeleted(s'.ca, s'.watches)
  {
    RelocatedReasons(s, s', fwd, origin);
    RelocatedSound(s, s', fwd, origin);
    RelocatedComplete(s, s', fwd, origin);
    forall k | Live(s'.ca, k) ensures ClauseOk(s'.ca[k].lits, |s'.assigns|) {
      assert fwd[origin[k]] == k;
      assert Live(s.ca, origin[k]);
    }
    forall p: Lit ensures p.v < |s'.assigns| <==> p in s'.watches {
      assert p in s.watches.Keys <==> p in s'.watches.Keys;
    }
  }

  lemma RelocatedWatchers(s: State, s': State, fwd: seq<CRef>, origin: seq<CRef>, p: Lit, x: CRef)
    requires Relocated(s, s', fwd, origin) && HasMoved(fwd, x)
    ensures p in s.watches ==> p in s'.watches && WatchersKept(s.watches[p], x, s'.watches[p], fwd[x])
  {
    if p in s.watches {
      assert p in s'.watches.Keys && WatchersMoved(fwd, s.watches[p]);
      forall b: Lit | Watcher(x, b) in s.watches[p] ensures Watcher(fwd[x], b) in s'.watches[p] {
        var j :| 0 <= j < |s.watches[p]| && s.watches[p][j] == Watcher(x, b);
        assert s'.watches[p][j] == Watcher(fwd[x], b);
      }
    }
  }

  lemma RelocatedWatchInv(s: State, s': State, fwd: seq<CRef>, origin: seq<CRef>, q: nat)
    requires Struct(s) && Relocated(s, s', fwd, origin) && WatchInv(s.ca, s.watches, s.assigns, s.vd, s.pos, q)
    ensures WatchInv(s'.ca, s'.watches, s'.assigns, s'.vd, s'.pos, q)
  {
    forall k, w: nat | Live(s'.ca, k) && FalseWatch(s'.ca[k].lits, w, s'.assigns, s'.vd, s'.pos, q)
      ensures Excused(s'.ca, s'.watches, s'.assigns, s'.vd, k, w, s'.vd[s'.ca[k].lits[w].v].level)
    {
      var x := origin[k];
      assert fwd[x] == k && s'.ca[k] == s.ca[x];
      assert Live(s.ca, x) && FalseWatch(s.ca[x].lits, w, s.assigns, s.vd, s.pos, q);
      RelocatedWatchers(s, s', fwd, origin, Neg(s.ca[x].lits[w]), x);
      ExcusedKept(s, x, w, s.vd[s.ca[x].lits[w].v].level, s', k);
    }
  }

  lemma RelocatedMeans(f: Formula, s: State, s': State, fwd: seq<CRef>, origin: seq<CRef>)
    requires Struct(s) && Relocated(s, s', fwd, origin) && Means(f, s)
    ensures Means(f, s')
  {
    assert Facts(s') == Facts(s);
    forall k | Live(s'.ca, k) ensures Entails(f, s'.ca[k].lits) {
      assert fwd[origin[k]] == k;
      assert Live(s.ca, origin[k]);
    }
    forall a: Model | SatDb(a, s'.ca, Facts(s)) ensures SatAll(a, f) {
      forall cr | Live(s.ca, cr) && !s.ca[cr].learnt ensures SatClause(a, s.ca[cr].lits) {
        LiveMoved(s, s', fwd, origin, cr);
      }
      assert SatDb(a, s.ca, Facts(s));
    }
  }

  lemma RelocatedLists(s: State, s': State, fwd: seq<CRef>, origin: seq<CRef>, clauses: seq<CRef>, learnts: seq<CRef>)
    requires Struct(s) && Relocated(s, s', fwd, origin) && ListsOk(s.ca, clauses, learnts)
    ensures ListsOk(s'.ca, RenameAll(fwd, clauses), RenameAll(fwd, learnts))
  {
    RenamedList(s, s', fwd, origin, clauses, false);
    RenamedList(s, s', fwd, origin, learnts, true);
    forall k | Live(s'.ca, k) ensures k in RenameAll(fwd, clauses) || k in RenameAll(fwd, learnts) {
      var x := origin[k];
      assert fwd[x] == k && Live(s.ca, x);
      if x in clauses {
        var i :| 0 <= i < |clauses| && clauses[i] == x;
        assert RenameAll(fwd, clauses)[i] == k;
      } else {
        var i :| 0 <= i < |learnts| && learnts[i] == x;
        assert RenameAll(fwd, learnts)[i] == k;
      }
    }
  }

  lemma RenamedList(s: State, s': State, fwd: seq<CRef>, origin: seq<CRef>, cs: seq<CRef>, learnt: bool)
    requires Struct(s) && Relocated(s, s', fwd, origin) && DistinctRefs(cs)
    requires forall cr :: cr in cs ==> Live(s.ca, cr) && s.ca[cr].learnt == learnt
    ensures AllMoved(fwd, cs)
    ensures DistinctRefs(RenameAll(fwd, cs))
    ensures forall k :: k in RenameAll(fwd, cs) ==> Live(s'.ca, k) && s'.ca[k].learnt == learnt
  {
    forall i | 0 <= i < |cs|
      ensures HasMoved(fwd, cs[i]) && Live(s'.ca, fwd[cs[i]]) && s'.ca[fwd[cs[i]]] == s.ca[cs[i]]
    {
      LiveMoved(s, s', fwd, origin, cs[i]);
    }
    var rs := RenameAll(fwd, cs);
    forall i, j | 0 <= i < j < |rs| ensures rs[i] != rs[j] {
      assert cs[i] != cs[j];
      MovedFaithful(s.ca, fwd, s'.ca, origin, cs[i], cs[j]);
    }
  }

  lemma RelocatedAssumptions(s: State, s': State, fwd: seq<CRef>, origin: seq<CRef>, assumptions: seq<Lit>)
    requires Relocated(s, s', fwd, origin) && AssumptionsOk(s, assumptions)
    ensures AssumptionsOk(s', assumptions)
  {
    forall l: nat, y | DecisionOf(s', y, l) && l < |assumptions| ensures y == assumptions[l] {
      assert DecisionOf(s, y, l);
    }
  }

  // ---------------------------------------------------------------- the collector's working state

  /** The collector's state: forwarding references in the old region, the new region, the activities. */
  datatype Collector = Collector(fwd: seq<CRef>, to: Region, act: seq<real>)

  ghost predicate Collecting(ca: Region, activity: seq<real>, g: Collector, origin: seq<CRef>) {
    && |activity| == |ca| && |g.act| == |g.to|
    && Moved(ca, g.fwd, g.to, origin)
    && forall k :: 0 <= k < |g.act| ==> g.act[k] == activity[origin[k]]
  }

  /** Move the clause cr unless it has moved; return its new reference. */
  method Reloc(ca: Region, activity: seq<real>, cr: CRef, g: Collector, ghost origin: seq<CRef>)
    returns (r: CRef, h: Collector, ghost o: seq<CRef>)
    requires Collecting(ca, activity, g, origin) && 0 <= cr < |ca|
    ensures Collecting(ca, activity, h, o) && Extends(g.fwd, h.fwd)
    ensures HasMoved(h.fwd, cr) && r == Renamed(h.fwd, cr)
  {
    if g.fwd[cr] != CREF_UNDEF {
      return g.fwd[cr], g, origin;
    }
    MoveStep(ca, g.fwd, g.to, origin, cr);
    r := |g.to|;
    h := Collector(g.fwd[cr := r], g.to + [ca[cr]], g.act + [activity[cr]]);
    o := origin + [cr];
  }

  /** Relocate every reference of a clause list. */
  method RelocList(ca: Region, activity: seq<real>, cs: seq<CRef>, g: Collector, ghost origin: seq<CRef>)
    returns (rs: seq<CRef>, h: Collector, ghost o: seq<CRef>)
    requires Collecting(ca, activity, g, origin) && forall i :: 0 <= i < |cs| ==> 0 <= cs[i] < |ca|
    ensures Collecting(ca, activity, h, o) && Extends(g.fwd, h.fwd)
    ensures AllMoved(h.fwd, cs) && rs == RenameAll(h.fwd, cs)
  {
    rs, h, o := [], g, origin;
    var i := 0;
    while i < |cs|
      invariant 0 <= i == |rs| <= |cs|
      invariant Collecting(ca, activity, h, o) && Extends(g.fwd, h.fwd)
      invariant forall k :: 0 <= k < i ==> HasMoved(h.fwd, cs[k]) && rs[k] == Renamed(h.fwd, cs[k])
    {
      var r;
      ghost var f0 := h.fwd;
      r, h, o := Reloc(ca, activity, cs[i], h, o);
      assert forall k :: 0 <= k < i ==> f0[cs[k]] != CREF_UNDEF;
      rs := rs + [r];
      i := i + 1;
    }
  }

  method RelocWatchers(ca: Region, activity: seq<real>, ws: seq<Watcher>, g: Collector, ghost origin: seq<CRef>)
    returns (rs: seq<Watcher>, h: Collector, ghost o: seq<CRef>)
    requires Collecting(ca, activity, g, origin) && forall i :: 0 <= i < |ws| ==> 0 <= ws[i].cref < |ca|
    ensures Collecting(ca, activity, h, o) && Extends(g.fwd, h.fwd)
    ensures WatchersMoved(h.fwd, ws) && rs == RenameWatchers(h.fwd, ws)
  {
    rs, h, o := [], g, origin;
    var i := 0;
    while i < |ws|
      invariant 0 <= i == |rs| <= |ws|
      invariant Collecting(ca, activity, h, o) && Extends(g.fwd, h.fwd)
      invariant forall k :: 0 <= k < i ==>
                  HasMoved(h.fwd, ws[k].cref) && rs[k] == Watcher(Renamed(h.fwd, ws[k].cref), ws[k].blocker)
    {
      var r;
      ghost var f0 := h.fwd;
      r, h, o := Reloc(ca, activity, ws[i].cref, h, o);
      assert forall k :: 0 <= k < i ==> f0[ws[k].cref] != CREF_UNDEF;
      rs := rs + [Watcher(r, ws[i].blocker)];
      i := i + 1;
    }
  }

  /** Renaming does not change once everything has moved. */
  lemma RenameStable(fwd: seq<CRef>, fwd': seq<CRef>, ws: seq<Watcher>)
    requires Extends(fwd, fwd') && WatchersMoved(fwd, ws)
    ensures WatchersMoved(fwd', ws) && RenameWatchers(fwd', ws) == RenameWatchers(fwd, ws)
  {
    forall i | 0 <= i < |ws|
      ensures HasMoved(fwd', ws[i].cref) && Renamed(fwd', ws[i].cref) == Renamed(fwd, ws[i].cref)
    {
      assert HasMoved(fwd, ws[i].cref);
    }
  }

  lemma RenameListStable(fwd: seq<CRef>, fwd': seq<CRef>, cs: seq<CRef>)
    requires Extends(fwd, fwd') && AllMoved(fwd, cs)
    ensures AllMoved(fwd', cs) && RenameAll(fwd', cs) == RenameAll(fwd, cs)
  {
    forall i | 0 <= i < |cs| ensures HasMoved(fwd', cs[i]) && Renamed(fwd', cs[i]) == Renamed(fwd, cs[i]) {
      assert HasMoved(fwd, cs[i]);
    }
  }

  lemma WatchesStable(fwd: seq<CRef>, fwd': seq<CRef>, watches: Watches, watches': Watches)
    requires Extends(fwd, fwd') && WatchesRenamed(fwd, watches, watches')
    ensures WatchesRenamed(fwd', watches, watches')
  {
    forall p | p in watches ensures WatchersMoved(fwd', watches[p]) && watches'[p] == RenameWatchers(fwd', watches[p]) {
      RenameStable(fwd, fwd', watches[p]);
    }
  }

  lemma ReasonsStable(fwd: seq<CRef>, fwd': seq<CRef>, trail: seq<Lit>, vd: seq<VarData>, vd': seq<VarData>)
    requires Extends(fwd, fwd') && ReasonsRenamed(fwd, trail, vd, vd')
    ensures ReasonsRenamed(fwd', trail, vd, vd')
  {
    forall i | 0 <= i < |trail| && trail[i].v < |vd| && vd[trail[i].v].reason != CREF_UNDEF
      ensures HasMoved(fwd', vd[trail[i].v].reason) && vd'[trail[i].v].reason == fwd'[vd[trail[i].v].reason]
    {
      assert HasMoved(fwd, vd[trail[i].v].reason);
    }
  }

  /** The lists of the literals on variables below v (and of v itself, for signs below k) are renamed. */
  ghost predicate WatchesPartly(fwd: seq<CRef>, w0: Watches, watches: Watches, v: nat, k: nat) {
    && watches.Keys == w0.Keys
    && forall p :: p in w0 ==>
         if p.v < v || (p.v == v && (k == 2 || (k == 1 && !p.neg))) then
           WatchersMoved(fwd, w0[p]) && watches[p] == RenameWatchers(fwd, w0[p])
         else watches[p] == w0[p]
  }

  lemma WatchesStep(fwd: seq<CRef>, fwd': seq<CRef>, w0: Watches, watches: Watches, v: nat, k: nat, ws: seq<Watcher>)
    requires WatchesPartly(fwd, w0, watches, v, k) && Extends(fwd, fwd') && k < 2
    requires Lit(v, k == 1) in w0 && WatchersMoved(fwd', w0[Lit(v, k == 1)])
    requires ws == RenameWatchers(fwd', w0[Lit(v, k == 1)])
    ensures WatchesPartly(fwd', w0, watches[Lit(v, k == 1) := ws], v, k + 1)
  {
    forall p | p in w0 && (p.v < v || (p.v == v && k == 1 && !p.neg))
      ensures WatchersMoved(fwd', w0[p]) && watches[p] == RenameWatchers(fwd', w0[p])
    {
      RenameStable(fwd, fwd', w0[p]);
    }
  }

  lemma WatchesNextVar(fwd: seq<CRef>, w0: Watches, watches: Watches, v: nat)
    requires WatchesPartly(fwd, w0, watches, v, 2)
    ensures WatchesPartly(fwd, w0, watches, v + 1, 0)
  {
  }

  lemma WatchesAll(fwd: seq<CRef>, w0: Watches, watches: Watches, n: nat)
    requires WatchesPartly(fwd, w0, watches, n, 0) && WatchKeys(w0, n)
    ensures WatchesRenamed(fwd, w0, watches)
  {
    forall p | p in w0 ensures WatchersMoved(fwd, w0[p]) && watches[p] == RenameWatchers(fwd, w0[p]) {
      assert p.v < n;
    }
  }

  /** The reasons of the first i trail literals are renamed, the others untouched. */
  ghost predicate ReasonsPartly(fwd: seq<CRef>, trail: seq<Lit>, vd0: seq<VarData>, vd: seq<VarData>, i: nat) {
    && i <= |trail| && |vd| == |vd0|
    && (forall v :: 0 <= v < |vd| ==> vd[v].level == vd0[v].level)
    && (forall j :: 0 <= j < i && trail[j].v < |vd| ==>
          var r := vd0[trail[j].v].reason;
          if r == CREF_UNDEF then vd[trail[j].v].reason == CREF_UNDEF
          else HasMoved(fwd, r) && vd[trail[j].v].reason == fwd[r])
    && (forall j :: i <= j < |trail| && trail[j].v < |vd| ==> vd[trail[j].v] == vd0[trail[j].v])
  }

  lemma ReasonsStep(s: State, fwd: seq<CRef>, fwd': seq<CRef>, vd: seq<VarData>, i: nat, r: CRef)
    requires Struct(s) && ReasonsPartly(fwd, s.trail, s.vd, vd, i) && i < |s.trail| && Extends(fwd, fwd')
    requires var q := s.vd[s.trail[i].v].reason;
             if q == CREF_UNDEF then r == CREF_UNDEF else HasMoved(fwd', q) && r == Renamed(fwd', q)
    ensures var v := s.trail[i].v;
            v < |vd| && ReasonsPartly(fwd', s.trail, s.vd, vd[v := vd[v].(reason := r)], i + 1)
  {
    var v := s.trail[i].v;
    assert s.pos[v] == i;
    var vd' := vd[v := vd[v].(reason := r)];
    forall j | 0 <= j < |s.trail| && j != i ensures s.trail[j].v != v {
      assert s.pos[s.trail[j].v] == j;
    }
    forall j | 0 <= j < i + 1 && s.trail[j].v < |vd'|
      ensures var q := s.vd[s.trail[j].v].reason;
              if q == CREF_UNDEF then vd'[s.trail[j].v].reason == CREF_UNDEF
              else HasMoved(fwd', q) && vd'[s.trail[j].v].reason == fwd'[q]
    {
      if j < i {
        var q := s.vd[s.trail[j].v].reason;
        assert q != CREF_UNDEF ==> HasMoved(fwd, q);
      }
    }
  }

  lemma ReasonsAll(fwd: seq<CRef>, trail: seq<Lit>, vd0: seq<VarData>, vd: seq<VarData>)
    requires ReasonsPartly(fwd, trail, vd0, vd, |trail|)
    ensures ReasonsRenamed(fwd, trail, vd0, vd)
  {
  }

  /** A reason on the trail is always locked, so the collector never skips one. */
  lemma TrailReasonLocked(s: State, i: nat)
    requires Struct(s) && i < |s.trail|
    ensures s.trail[i].v < |s.vd| == |s.assigns|
    ensures var r := s.vd[s.trail[i].v].reason;
            r != CREF_UNDEF ==>
              0 <= r < |s.ca| && Locked(s.ca, s.assigns, s.vd, r) && s.ca[r].lits[0].v == s.trail[i].v
  {
    var r := s.vd[s.trail[i].v].reason;
    if r != CREF_UNDEF {
      assert ReasonAt(s.ca, s.assigns, s.pos, s.trail[i], r, i);
    }
  }

  lemma CollectStart(ca: Region, activity: seq<real>)
    requires |activity| == |ca|
    ensures Collecting(ca, activity, Collector(seq(|ca|, _ => CREF_UNDEF), [], []), [])
  {
  }

  lemma WatcherRange(s: State, p: Lit)
    requires Struct(s) && p in s.watches
    ensures forall i :: 0 <= i < |s.watches[p]| ==> 0 <= s.watches[p][i].cref < |s.ca|
  {
    forall i | 0 <= i < |s.watches[p]| ensures 0 <= s.watches[p][i].cref < |s.ca| {
      assert WatcherOk(s.ca, p, s.watches[p][i]);
    }
  }

  lemma StructKeys(s: State)
    requires Struct(s)
    ensures WatchKeys(s.watches, |s.assigns|)
  {
  }

  lemma StructKeyAt(s: State, p: Lit)
    requires Struct(s) && p.v < |s.assigns|
    ensures p in s.watches
  {
  }

  lemma WatchesStart(fwd: seq<CRef>, watches: Watches)
    ensures WatchesPartly(fwd, watches, watches, 0, 0)
  {
  }

  lemma WatchesUntouched(fwd: seq<CRef>, w0: Watches, watches: Watches, v: nat, k: nat)
    requires WatchesPartly(fwd, w0, watches, v, k) && k < 2 && Lit(v, k == 1) in w0
    ensures Lit(v, k == 1) in watches && watches[Lit(v, k == 1)] == w0[Lit(v, k == 1)]
  {
    assert Lit(v, k == 1) in watches.Keys;
  }

  lemma ReasonsUntouched(fwd: seq<CRef>, trail: seq<Lit>, vd0: seq<VarData>, vd: seq<VarData>, i: nat)
    requires ReasonsPartly(fwd, trail, vd0, vd, i) && i < |trail| && trail[i].v < |vd0|
    ensures trail[i].v < |vd| && vd[trail[i].v] == vd0[trail[i].v]
  {
  }

  lemma CollectFacts(ca: Region, activity: seq<real>, g: Collector, origin: seq<CRef>)
    requires Collecting(ca, activity, g, origin)
    ensures |g.fwd| == |ca| && |g.act| == |g.to|
  {
  }

  lemma ExtendsRefl(fwd: seq<CRef>)
    ensures Extends(fwd, fwd)
  {
  }

  lemma ExtendsTrans(f: seq<CRef>, g: seq<CRef>, h: seq<CRef>)
    requires Extends(f, g) && Extends(g, h)
    ensures Extends(f, h)
  {
  }

  lemma ListsRange(ca: Region, clauses: seq<CRef>, learnts: seq<CRef>)
    requires ListsOk(ca, clauses, learnts)
    ensures forall i :: 0 <= i < |clauses| ==> 0 <= clauses[i] < |ca|
    ensures forall i :: 0 <= i < |learnts| ==> 0 <= learnts[i] < |ca|
  {
    forall i | 0 <= i < |clauses| ensures 0 <= clauses[i] < |ca| {
      assert clauses[i] in clauses;
    }
    forall i | 0 <= i < |learnts| ensures 0 <= learnts[i] < |ca| {
      assert learnts[i] in learnts;
    }
  }

  lemma CollectEnd(ca: Region, activity: seq<real>, g: Collector, origin: seq<CRef>)
    requires Collecting(ca, activity, g, origin)
    ensures |g.act| == |g.to| == |origin| && |activity| == |ca| && Moved(ca, g.fwd, g.to, origin)
    ensures forall k :: 0 <= k < |g.to| ==> 0 <= origin[k] < |ca| && g.act[k] == activity[origin[k]]
  {
  }

  lemma RelocatedParts(s: State, s': State, fwd: seq<CRef>, origin: seq<CRef>)
    requires Relocated(s, s', fwd, origin)
    ensures Moved(s.ca, fwd, s'.ca, origin) && WatchesRenamed(fwd, s.watches, s'.watches)
    ensures ReasonsRenamed(fwd, s.trail, s.vd, s'.vd) && s.trail == s'.trail
  {
  }

  /** Moving satisfies no clause. */
  lemma MovedUnsatisfied(ca: Region, fwd: seq<CRef>, to: Region, origin: seq<CRef>, cs: seq<CRef>, assigns: seq<LBool>)
    requires Moved(ca, fwd, to, origin) && AllMoved(fwd, cs) && NoneSatisfied(ca, cs, assigns)
    ensures NoneSatisfied(to, RenameAll(fwd, cs), assigns)
  {
    forall cr | cr in RenameAll(fwd, cs) ensures !HasTrueLit(to, assigns, cr) {
      var i :| 0 <= i < |cs| && RenameAll(fwd, cs)[i] == cr;
      assert HasMoved(fwd, cs[i]) && cs[i] in cs;
      assert to[cr] == ca[cs[i]];
    }
  }
}
