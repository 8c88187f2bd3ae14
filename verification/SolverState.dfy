/** The invariants of the conflict-driven solver, stated over the parts of its state. */
module SolverState {
  import opened Sat

  /** A clause reference is an index into the clause region; CREF_UNDEF is the null reference. */
  type CRef = int
  const CREF_UNDEF: CRef := -1

  datatype Clause = Clause(lits: seq<Lit>, learnt: bool, mark: nat)
  datatype Watcher = Watcher(cref: CRef, blocker: Lit)
  datatype VarData = VarData(reason: CRef, level: nat)

  type Region = seq<Clause>
  type Watches = map<Lit, seq<Watcher>>

  predicate Live(ca: Region, cr: CRef) {
    0 <= cr < |ca| && ca[cr].mark == 0
  }

  /** A snapshot of the solver's fields. `pos` is the position of a variable on the trail. */
  datatype State = State(
    ca: Region, watches: Watches, assigns: seq<LBool>, trail: seq<Lit>, lim: seq<nat>,
    vd: seq<VarData>, pos: seq<nat>)

  // ---------------------------------------------------------------- trail

  ghost predicate TrailOk(assigns: seq<LBool>, trail: seq<Lit>, pos: seq<nat>) {
    && |pos| == |assigns|
    && (forall i :: 0 <= i < |trail| ==>
          trail[i].v < |assigns| && IsTrue(assigns, trail[i]) && pos[trail[i].v] == i)
    && (forall v :: 0 <= v < |assigns| && assigns[v] != Undef ==>
          pos[v] < |trail| && trail[pos[v]].v == v)
  }

  ghost predicate LimOk(lim: seq<nat>, size: nat) {
    && (forall i, j :: 0 <= i < j < |lim| ==> lim[i] <= lim[j])
    && (forall i :: 0 <= i < |lim| ==> lim[i] <= size)
  }

  /** Trail position i lies in decision level l. */
  predicate AtLevel(lim: seq<nat>, l: nat, i: nat) {
    && l <= |lim|
    && (l > 0 ==> lim[l - 1] <= i)
    && (l < |lim| ==> i < lim[l])
  }

  ghost predicate LevelOk(trail: seq<Lit>, lim: seq<nat>, vd: seq<VarData>) {
    forall i :: 0 <= i < |trail| ==>
      trail[i].v < |vd| && AtLevel(lim, vd[trail[i].v].level, i)
  }

  /** All literals of c after the first are false and were assigned before trail position i. */
  ghost predicate TailFalse(c: seq<Lit>, assigns: seq<LBool>, pos: seq<nat>, i: nat) {
    forall k :: 1 <= k < |c| ==>
      IsFalse(assigns, c[k]) && c[k].v < |pos| && pos[c[k].v] < i
  }

  ghost predicate ReasonAt(ca: Region, assigns: seq<LBool>, pos: seq<nat>, p: Lit, r: CRef, i: nat) {
    Live(ca, r) && |ca[r].lits| > 0 && ca[r].lits[0] == p && TailFalse(ca[r].lits, assigns, pos, i)
  }

  /** Every implied literal has a live reason clause; only decisions and level 0 have none. */
  ghost predicate ReasonOk(ca: Region, assigns: seq<LBool>, trail: seq<Lit>, lim: seq<nat>,
                           vd: seq<VarData>, pos: seq<nat>) {
    forall i :: 0 <= i < |trail| ==>
      && trail[i].v < |vd|
      && var d := vd[trail[i].v];
      if d.reason == CREF_UNDEF then
        d.level == 0 || (d.level <= |lim| && lim[d.level - 1] == i)
      else
        ReasonAt(ca, assigns, pos, trail[i], d.reason, i)
  }

  // ---------------------------------------------------------------- clauses and watches

  ghost predicate ClauseOk(c: seq<Lit>, n: nat) {
    |c| >= 2 && NoDup(c) && forall p :: p in c ==> p.v < n
  }

  ghost predicate DbOk(ca: Region, n: nat) {
    forall cr :: Live(ca, cr) ==> ClauseOk(ca[cr].lits, n)
  }

  ghost predicate HasWatch(ws: seq<Watcher>, cr: CRef, from: nat) {
    exists j :: from <= j < |ws| && ws[j].cref == cr
  }

  ghost predicate WatchKeys(watches: Watches, n: nat) {
    forall p: Lit :: p.v < n <==> p in watches
  }

  /** A watcher of a live clause under p: the clause watches ~p and holds the blocker. */
  ghost predicate WatcherOk(ca: Region, p: Lit, w: Watcher) {
    && 0 <= w.cref < |ca|
    && (Live(ca, w.cref) ==>
          |ca[w.cref].lits| >= 2
          && (ca[w.cref].lits[0] == Neg(p) || ca[w.cref].lits[1] == Neg(p))
          && w.blocker in ca[w.cref].lits)
  }

  ghost predicate WatchSound(ca: Region, watches: Watches) {
    && (forall p, j :: p in watches && 0 <= j < |watches[p]| ==> WatcherOk(ca, p, watches[p][j]))
    && (forall p, i, j :: p in watches && 0 <= i < j < |watches[p]| ==>
          watches[p][i].cref != watches[p][j].cref)
  }

  /** Both watched literals of every live clause have their watcher. */
  ghost predicate WatchComplete(ca: Region, watches: Watches) {
    forall cr, w :: Live(ca, cr) && 0 <= w < 2 && w < |ca[cr].lits| ==>
      && Neg(ca[cr].lits[w]) in watches
      && HasWatch(watches[Neg(ca[cr].lits[w])], cr, 0)
  }

  ghost predicate NoDeleted(ca: Region, watches: Watches) {
    forall p, j :: p in watches && 0 <= j < |watches[p]| ==> Live(ca, watches[p][j].cref)
  }

  /** x is true at level at most l. */
  ghost predicate TrueAt(assigns: seq<LBool>, vd: seq<VarData>, x: Lit, l: nat) {
    IsTrue(assigns, x) && x.v < |vd| && vd[x.v].level <= l
  }

  /** The watcher of cr in the list has a blocker that is true at level at most l. */
  ghost predicate Blocked(ws: seq<Watcher>, cr: CRef, assigns: seq<LBool>, vd: seq<VarData>, l: nat) {
    exists x: Lit :: Watcher(cr, x) in ws && TrueAt(assigns, vd, x, l)
  }

  /** Watch w of clause cr may be false at level l: its blocker or the other watch is true at a level no higher. */
  ghost predicate Excused(ca: Region, watches: Watches, assigns: seq<LBool>, vd: seq<VarData>,
                          cr: CRef, w: nat, l: nat) {
    && 0 <= cr < |ca| && w < 2 <= |ca[cr].lits|
    && var p := Neg(ca[cr].lits[w]);
    || TrueAt(assigns, vd, ca[cr].lits[1 - w], l)
    || (p in watches && Blocked(watches[p], cr, assigns, vd, l))
  }

  /** A watched literal that is false and was propagated (trail position below q). */
  predicate FalseWatch(c: seq<Lit>, w: nat, assigns: seq<LBool>, vd: seq<VarData>, pos: seq<nat>, q: nat) {
    && w < 2 && w < |c| && IsFalse(assigns, c[w])
    && c[w].v < |pos| && c[w].v < |vd| && pos[c[w].v] < q
  }

  /** The watch invariant: every propagated false watch is excused at its own level. */
  ghost predicate WatchInv(ca: Region, watches: Watches, assigns: seq<LBool>, vd: seq<VarData>, pos: seq<nat>,
                           q: nat) {
    forall cr, w: nat :: Live(ca, cr) && FalseWatch(ca[cr].lits, w, assigns, vd, pos, q) ==>
      Excused(ca, watches, assigns, vd, cr, w, vd[ca[cr].lits[w].v].level)
  }

  /** True literals keep their value and level. */
  ghost predicate TrueKept(assigns: seq<LBool>, vd: seq<VarData>, assigns': seq<LBool>, vd': seq<VarData>) {
    forall x: Lit :: IsTrue(assigns, x) && x.v < |vd| ==>
      IsTrue(assigns', x) && x.v < |vd'| && vd'[x.v].level == vd[x.v].level
  }

  /** Every watcher of cr in the list has one of cr' with the same blocker in the new list. */
  ghost predicate WatchersKept(ws: seq<Watcher>, cr: CRef, ws': seq<Watcher>, cr': CRef) {
    forall x: Lit :: Watcher(cr, x) in ws ==> Watcher(cr', x) in ws'
  }

  /** An excuse survives while true literals keep value and level and the clause keeps its watcher. */
  lemma ExcusedKept(s: State, cr: CRef, w: nat, l: nat, s': State, cr': CRef)
    requires Excused(s.ca, s.watches, s.assigns, s.vd, cr, w, l) && TrueKept(s.assigns, s.vd, s'.assigns, s'.vd)
    requires 0 <= cr' < |s'.ca| && s'.ca[cr'].lits == s.ca[cr].lits
    requires var p := Neg(s.ca[cr].lits[w]);
             p in s.watches ==> p in s'.watches && WatchersKept(s.watches[p], cr, s'.watches[p], cr')
    ensures Excused(s'.ca, s'.watches, s'.assigns, s'.vd, cr', w, l)
  {
    var p := Neg(s.ca[cr].lits[w]);
    if !TrueAt(s.assigns, s.vd, s.ca[cr].lits[1 - w], l) {
      var x: Lit :| Watcher(cr, x) in s.watches[p] && TrueAt(s.assigns, s.vd, x, l);
      assert Watcher(cr', x) in s'.watches[p] && TrueAt(s'.assigns, s'.vd, x, l);
    }
  }

  /** As ExcusedKept, for a change that leaves the watch lists alone. */
  lemma ExcusedSameLists(s: State, cr: CRef, w: nat, l: nat, s': State)
    requires Excused(s.ca, s.watches, s.assigns, s.vd, cr, w, l) && TrueKept(s.assigns, s.vd, s'.assigns, s'.vd)
    requires 0 <= cr < |s'.ca| && s'.ca[cr].lits == s.ca[cr].lits && s'.watches == s.watches
    ensures Excused(s'.ca, s'.watches, s'.assigns, s'.vd, cr, w, l)
  {
    ExcusedKept(s, cr, w, l, s', cr);
  }

  // ---------------------------------------------------------------- meaning

  /** The part of the trail at level 0. */
  function Root(trail: seq<Lit>, lim: seq<nat>): nat {
    if lim == [] then |trail| else lim[0]
  }

  /** The problem clauses and the level-0 facts all hold. */
  ghost predicate SatDb(a: Model, ca: Region, facts: seq<Lit>) {
    && (forall cr :: Live(ca, cr) && !ca[cr].learnt ==> SatClause(a, ca[cr].lits))
    && (forall p :: p in facts ==> Holds(a, p))
  }

  /** Everything in the database follows from f, and the problem part of it is equivalent to f. */
  ghost predicate SemOk(f: Formula, ca: Region, facts: seq<Lit>) {
    && (forall cr :: Live(ca, cr) ==> Entails(f, ca[cr].lits))
    && (forall p :: p in facts ==> Entails(f, [p]))
    && (forall a: Model :: SatDb(a, ca, facts) ==> SatAll(a, f))
  }

  /** Two regions hold the same clauses, up to the order of literals. */
  ghost predicate SameDb(ca: Region, cb: Region) {
    && |ca| == |cb|
    && forall cr :: 0 <= cr < |ca| ==>
         ca[cr].mark == cb[cr].mark && ca[cr].learnt == cb[cr].learnt && SameLits(ca[cr].lits, cb[cr].lits)
  }

  /** The structural invariant that holds in every reachable state. */
  ghost predicate Struct(s: State) {
    && |s.vd| == |s.assigns|
    && TrailOk(s.assigns, s.trail, s.pos)
    && LimOk(s.lim, |s.trail|)
    && LevelOk(s.trail, s.lim, s.vd)
    && ReasonOk(s.ca, s.assigns, s.trail, s.lim, s.vd, s.pos)
    && DbOk(s.ca, |s.assigns|)
    && WatchKeys(s.watches, |s.assigns|)
    && WatchSound(s.ca, s.watches)
    && WatchComplete(s.ca, s.watches)
  }

  /** Every unassigned decision variable is in the order heap. */
  ghost predicate HeapOk(assigns: seq<LBool>, decision: seq<bool>, polarity: seq<bool>, heap: set<Var>) {
    && |decision| == |polarity| == |assigns|
    && (forall v :: 0 <= v < |assigns| && decision[v] && assigns[v] == Undef ==> v in heap)
    && (forall v :: v in heap ==> v < |assigns|)
  }

  /** The clause that propagating p found false. */
  ghost predicate Conflicting(ca: Region, assigns: seq<LBool>, confl: CRef, p: Lit) {
    Live(ca, confl) && (forall x :: x in ca[confl].lits ==> IsFalse(assigns, x)) && Neg(p) in ca[confl].lits
  }

  function LastLim(lim: seq<nat>): nat {
    if lim == [] then 0 else lim[|lim| - 1]
  }
}
