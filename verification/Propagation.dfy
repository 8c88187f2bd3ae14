/** What one visit of a watcher does to the state, and why the watch invariant survives it. */
module Propagation {
  import opened Sat
  import opened SolverState

  /** The state after `uncheckedEnqueue(p, r)`. */
  function Enqueued(s: State, p: Lit, r: CRef): State
    requires p.v < |s.assigns| && p.v < |s.vd| && p.v < |s.pos|
  {
    s.(assigns := s.assigns[p.v := if p.neg then False else True],
       vd := s.vd[p.v := VarData(r, |s.lim|)],
       trail := s.trail + [p],
       pos := s.pos[p.v := |s.trail|])
  }

  /** What the caller of `uncheckedEnqueue` owes: a clause that implies p, or level 0, or a fresh level. */
  ghost predicate Enqueueable(s: State, p: Lit, r: CRef) {
    && Struct(s)
    && IsUndef(s.assigns, p)
    && if r == CREF_UNDEF then s.lim == [] || LastLim(s.lim) == |s.trail|
       else ReasonAt(s.ca, s.assigns, s.pos, p, r, |s.trail|)
  }

  lemma EnqueueReasons(s: State, p: Lit, r: CRef)
    requires Enqueueable(s, p, r)
    ensures var s' := Enqueued(s, p, r);
            ReasonOk(s'.ca, s'.assigns, s'.trail, s'.lim, s'.vd, s'.pos)
  {
    var s' := Enqueued(s, p, r);
    forall i | 0 <= i < |s'.trail|
      ensures
        && s'.trail[i].v < |s'.vd|
        && var d := s'.vd[s'.trail[i].v];
        if d.reason == CREF_UNDEF then
          d.level == 0 || (d.level <= |s'.lim| && s'.lim[d.level - 1] == i)
        else
          ReasonAt(s'.ca, s'.assigns, s'.pos, s'.trail[i], d.reason, i)
    {
      if i < |s.trail| {
        assert s.trail[i].v != p.v;
        var d := s.vd[s.trail[i].v];
        if d.reason != CREF_UNDEF {
          TailKept(s, p, r, d.reason, i);
        }
      } else if r != CREF_UNDEF {
        TailKept(s, p, r, r, i);
      }
    }
  }

  lemma TailKept(s: State, p: Lit, r: CRef, cr: CRef, i: nat)
    requires IsUndef(s.assigns, p) && p.v < |s.vd| && p.v < |s.pos|
    requires Live(s.ca, cr) && TailFalse(s.ca[cr].lits, s.assigns, s.pos, i)
    ensures var s' := Enqueued(s, p, r);
            TailFalse(s.ca[cr].lits, s'.assigns, s'.pos, i)
  {
  }

  lemma EnqueueTrail(s: State, p: Lit, r: CRef)
    requires Enqueueable(s, p, r)
    ensures var s' := Enqueued(s, p, r);
            && TrailOk(s'.assigns, s'.trail, s'.pos) && LimOk(s'.lim, |s'.trail|)
            && LevelOk(s'.trail, s'.lim, s'.vd)
  {
    var s' := Enqueued(s, p, r);
    hide ReasonOk, DbOk, WatchKeys, WatchSound, WatchComplete;
    assert forall i :: 0 <= i < |s.trail| ==> s.trail[i].v != p.v;
    assert AtLevel(s.lim, |s.lim|, |s.trail|);
  }

  lemma EnqueueStruct(s: State, p: Lit, r: CRef)
    requires Enqueueable(s, p, r)
    ensures Struct(Enqueued(s, p, r))
    ensures IsTrue(Enqueued(s, p, r).assigns, p)
  {
    EnqueueReasons(s, p, r);
    EnqueueTrail(s, p, r);
    hide TrailOk, LimOk, LevelOk, ReasonOk, DbOk, WatchKeys, WatchSound, WatchComplete;
  }

  lemma EnqueueTrueKept(s: State, p: Lit, r: CRef)
    requires IsUndef(s.assigns, p) && p.v < |s.vd| && p.v < |s.pos|
    ensures var s' := Enqueued(s, p, r); TrueKept(s.assigns, s.vd, s'.assigns, s'.vd)
    ensures var s' := Enqueued(s, p, r);
            forall c: seq<Lit>, w: nat, q: nat :: q <= |s.trail| && FalseWatch(c, w, s'.assigns, s'.vd, s'.pos, q) ==>
              FalseWatch(c, w, s.assigns, s.vd, s.pos, q) && s'.vd[c[w].v] == s.vd[c[w].v]
  {
  }

  /** Enqueuing leaves the watch invariant of the propagated prefix alone. */
  lemma EnqueueWatchInv(s: State, p: Lit, r: CRef, q: nat)
    requires Enqueueable(s, p, r) && q <= |s.trail|
    requires WatchInv(s.ca, s.watches, s.assigns, s.vd, s.pos, q)
    ensures var s' := Enqueued(s, p, r); WatchInv(s'.ca, s'.watches, s'.assigns, s'.vd, s'.pos, q)
  {
    var s' := Enqueued(s, p, r);
    EnqueueTrueKept(s, p, r);
    hide TrueKept, Excused, Struct;
    forall cr, w: nat | Live(s'.ca, cr) && FalseWatch(s'.ca[cr].lits, w, s'.assigns, s'.vd, s'.pos, q)
      ensures Excused(s'.ca, s'.watches, s'.assigns, s'.vd, cr, w, s'.vd[s'.ca[cr].lits[w].v].level)
    {
      ExcusedSameLists(s, cr, w, s.vd[s.ca[cr].lits[w].v].level, s');
    }
  }

  // ---------------------------------------------------------------- one round of propagation

  /** Mid-round watch invariant: watchers of p = trail[q] from index j on are still to be visited. */
  ghost predicate PartialWatch(s: State, q: nat, j: nat)
    requires q < |s.trail| && s.trail[q] in s.watches
  {
    var p := s.trail[q];
    forall cr, w: nat :: Live(s.ca, cr) && FalseWatch(s.ca[cr].lits, w, s.assigns, s.vd, s.pos, q + 1) ==>
      || Excused(s.ca, s.watches, s.assigns, s.vd, cr, w, s.vd[s.ca[cr].lits[w].v].level)
      || (s.ca[cr].lits[w] == Neg(p) && HasWatch(s.watches[p], cr, j))
  }

  ghost predicate RoundInv(s: State, q: nat, j: nat) {
    && Struct(s)
    && NoDeleted(s.ca, s.watches)
    && q < |s.trail|
    && LastLim(s.lim) <= q
    && j <= |s.watches[s.trail[q]]|
    && PartialWatch(s, q, j)
  }

  lemma RoundStart(s: State, q: nat)
    requires Struct(s) && NoDeleted(s.ca, s.watches) && q < |s.trail| && LastLim(s.lim) <= q
    requires WatchInv(s.ca, s.watches, s.assigns, s.vd, s.pos, q)
    ensures RoundInv(s, q, 0)
  {
    var p := s.trail[q];
    forall cr, w: nat | Live(s.ca, cr) && FalseWatch(s.ca[cr].lits, w, s.assigns, s.vd, s.pos, q + 1)
      ensures
        || Excused(s.ca, s.watches, s.assigns, s.vd, cr, w, s.vd[s.ca[cr].lits[w].v].level)
        || (s.ca[cr].lits[w] == Neg(p) && HasWatch(s.watches[p], cr, 0))
    {
      var x := s.ca[cr].lits[w];
      if s.pos[x.v] < q {
        assert FalseWatch(s.ca[cr].lits, w, s.assigns, s.vd, s.pos, q);
      } else {
        assert s.trail[s.pos[x.v]].v == x.v;
        assert x == Neg(p);
        assert Neg(x) == p;
      }
    }
  }

  lemma RoundEnd(s: State, q: nat)
    requires q < |s.trail| && s.trail[q] in s.watches && RoundInv(s, q, |s.watches[s.trail[q]]|)
    ensures WatchInv(s.ca, s.watches, s.assigns, s.vd, s.pos, q + 1)
  {
  }

  /** When a round is cut short by a conflict, the part below the current level is still in order. */
  lemma RoundCut(s: State, q: nat, j: nat)
    requires RoundInv(s, q, j)
    ensures WatchInv(s.ca, s.watches, s.assigns, s.vd, s.pos, q)
  {
    forall cr, w: nat | Live(s.ca, cr) && FalseWatch(s.ca[cr].lits, w, s.assigns, s.vd, s.pos, q)
      ensures Excused(s.ca, s.watches, s.assigns, s.vd, cr, w, s.vd[s.ca[cr].lits[w].v].level)
    {
      assert FalseWatch(s.ca[cr].lits, w, s.assigns, s.vd, s.pos, q + 1);
      assert s.ca[cr].lits[w] != Neg(s.trail[q]);
    }
  }

  /** The level of every literal on the trail from position LastLim on is the current one. */
  lemma CurrentLevel(s: State, i: nat)
    requires LimOk(s.lim, |s.trail|) && LevelOk(s.trail, s.lim, s.vd)
    requires LastLim(s.lim) <= i < |s.trail|
    ensures s.vd[s.trail[i].v].level == |s.lim|
  {
  }

  /** A true literal is never above the current level. */
  lemma TrueHasLevel(s: State, x: Lit)
    requires Struct(s) && IsTrue(s.assigns, x)
    ensures TrueAt(s.assigns, s.vd, x, |s.lim|)
  {
    assert s.trail[s.pos[x.v]].v == x.v;
  }

  // ---------------------------------------------------------------- what a complete propagation means

  /** No live clause is falsified, and none has exactly one literal left that is not true: where all literals but one
      are false, that one is true. */
  ghost predicate UnitFree(ca: Region, assigns: seq<LBool>) {
    forall cr, k: nat :: Live(ca, cr) && k < |ca[cr].lits| && OthersFalse(ca[cr].lits, k, assigns) ==>
      IsTrue(assigns, ca[cr].lits[k])
  }

  ghost predicate OthersFalse(c: seq<Lit>, k: nat, assigns: seq<LBool>) {
    forall i :: 0 <= i < |c| && i != k ==> IsFalse(assigns, c[i])
  }

  lemma FalseWatched(s: State, cr: CRef, w: nat)
    requires Struct(s) && Live(s.ca, cr) && w < 2 && w < |s.ca[cr].lits| && IsFalse(s.assigns, s.ca[cr].lits[w])
    ensures FalseWatch(s.ca[cr].lits, w, s.assigns, s.vd, s.pos, |s.trail|)
  {
    assert s.ca[cr].lits[w] in s.ca[cr].lits && ClauseOk(s.ca[cr].lits, |s.assigns|);
  }

  /** An excuse is a true literal of the clause: the blocker of a watcher is one of its literals. */
  lemma ExcusedTrue(s: State, cr: CRef, w: nat, l: nat)
    requires Struct(s) && Live(s.ca, cr) && Excused(s.ca, s.watches, s.assigns, s.vd, cr, w, l)
    ensures exists x :: x in s.ca[cr].lits && TrueAt(s.assigns, s.vd, x, l)
  {
    var c := s.ca[cr].lits;
    if TrueAt(s.assigns, s.vd, c[1 - w], l) {
      assert c[1 - w] in c;
    } else {
      var ws := s.watches[Neg(c[w])];
      var x: Lit :| Watcher(cr, x) in ws && TrueAt(s.assigns, s.vd, x, l);
      var j :| 0 <= j < |ws| && ws[j] == Watcher(cr, x);
      assert WatcherOk(s.ca, Neg(c[w]), ws[j]);
    }
  }

  /** When everything is propagated without a conflict, no clause is falsified or unit and unsatisfied. */
  lemma PropagatedUnitFree(s: State)
    requires Struct(s) && WatchInv(s.ca, s.watches, s.assigns, s.vd, s.pos, |s.trail|)
    ensures UnitFree(s.ca, s.assigns)
  {
    forall cr, k: nat | Live(s.ca, cr) && k < |s.ca[cr].lits| && OthersFalse(s.ca[cr].lits, k, s.assigns)
      ensures IsTrue(s.assigns, s.ca[cr].lits[k])
    {
      var c := s.ca[cr].lits;
      assert ClauseOk(c, |s.assigns|);
      var w := if k == 0 then 1 else 0;
      FalseWatched(s, cr, w);
      ExcusedTrue(s, cr, w, s.vd[c[w].v].level);
    }
  }

  /** Watch lists: every list is sound and complete, and holds no watcher of a deleted clause. */
  ghost predicate WatchLists(ca: Region, watches: Watches) {
    WatchSound(ca, watches) && WatchComplete(ca, watches) && NoDeleted(ca, watches)
  }

  /** Give watcher j of p a new blocker. */
  function Reblock(watches: Watches, p: Lit, j: nat, b: Lit): Watches
    requires p in watches && j < |watches[p]|
  {
    watches[p := watches[p][j := Watcher(watches[p][j].cref, b)]]
  }

  lemma ReblockLists(ca: Region, watches: Watches, p: Lit, j: nat, b: Lit)
    requires WatchLists(ca, watches) && p in watches && j < |watches[p]|
    requires Live(ca, watches[p][j].cref) && b in ca[watches[p][j].cref].lits
    ensures WatchLists(ca, Reblock(watches, p, j, b))
  {
    var watches' := Reblock(watches, p, j, b);
    forall x, i | x in watches' && 0 <= i < |watches'[x]|
      ensures WatcherOk(ca, x, watches'[x][i]) && Live(ca, watches'[x][i].cref)
    {
      assert WatcherOk(ca, x, watches[x][i]);
    }
    forall x, i, k | x in watches' && 0 <= i < k < |watches'[x]|
      ensures watches'[x][i].cref != watches'[x][k].cref
    {
      assert watches[x][i].cref != watches[x][k].cref;
    }
    forall cx, w | Live(ca, cx) && 0 <= w < 2 && w < |ca[cx].lits|
      ensures Neg(ca[cx].lits[w]) in watches' && HasWatch(watches'[Neg(ca[cx].lits[w])], cx, 0)
    {
      ReblockHas(watches, p, j, b, Neg(ca[cx].lits[w]), cx, 0);
    }
  }

  lemma ReblockHas(watches: Watches, p: Lit, j: nat, b: Lit, x: Lit, cx: CRef, from: nat)
    requires p in watches && j < |watches[p]|
    requires x in watches && HasWatch(watches[x], cx, from)
    ensures HasWatch(Reblock(watches, p, j, b)[x], cx, from)
  {
    var i :| from <= i < |watches[x]| && watches[x][i].cref == cx;
    assert Reblock(watches, p, j, b)[x][i].cref == cx;
  }

  lemma ReblockKeeps(watches: Watches, p: Lit, j: nat, b: Lit, x: Lit, cx: CRef)
    requires p in watches && j < |watches[p]| && x in watches
    requires x == p ==> cx != watches[p][j].cref
    ensures WatchersKept(watches[x], cx, Reblock(watches, p, j, b)[x], cx)
  {
    forall y: Lit | Watcher(cx, y) in watches[x] ensures Watcher(cx, y) in Reblock(watches, p, j, b)[x] {
      var i :| 0 <= i < |watches[x]| && watches[x][i] == Watcher(cx, y);
      assert Reblock(watches, p, j, b)[x][i] == Watcher(cx, y);
    }
  }

  /** Keep the watcher at j, with a true blocker b. */
  lemma Advance(s: State, q: nat, j: nat, b: Lit)
    requires RoundInv(s, q, j) && j < |s.watches[s.trail[q]]|
    requires b in s.ca[s.watches[s.trail[q]][j].cref].lits && IsTrue(s.assigns, b)
    ensures RoundInv(s.(watches := Reblock(s.watches, s.trail[q], j, b)), q, j + 1)
  {
    var p := s.trail[q];
    var s' := s.(watches := Reblock(s.watches, p, j, b));
    ReblockLists(s.ca, s.watches, p, j, b);
    TrueHasLevel(s, b);
    AdvancePartial(s, q, j, b);
  }

  lemma AdvancePartial(s: State, q: nat, j: nat, b: Lit)
    requires q < |s.trail| && s.trail[q] in s.watches && PartialWatch(s, q, j)
    requires LimOk(s.lim, |s.trail|) && LevelOk(s.trail, s.lim, s.vd) && LastLim(s.lim) <= q
    requires DbOk(s.ca, |s.assigns|) && j < |s.watches[s.trail[q]]|
    requires TrueAt(s.assigns, s.vd, b, |s.lim|)
    ensures PartialWatch(s.(watches := Reblock(s.watches, s.trail[q], j, b)), q, j + 1)
  {
    var p := s.trail[q];
    CurrentLevel(s, q);
    var s' := s.(watches := Reblock(s.watches, p, j, b));
    forall cx, w: nat | Live(s'.ca, cx) && FalseWatch(s'.ca[cx].lits, w, s'.assigns, s'.vd, s'.pos, q + 1)
      ensures
        || Excused(s'.ca, s'.watches, s'.assigns, s'.vd, cx, w, s'.vd[s'.ca[cx].lits[w].v].level)
        || (s'.ca[cx].lits[w] == Neg(p) && HasWatch(s'.watches[p], cx, j + 1))
    {
      var y := s.ca[cx].lits[w];
      if y == Neg(p) && cx == s.watches[p][j].cref {
        assert s'.watches[p][j] == Watcher(cx, b);
        assert Neg(y) == p && ClauseOk(s.ca[cx].lits, |s.assigns|);
      } else if Excused(s.ca, s.watches, s.assigns, s.vd, cx, w, s.vd[y.v].level) {
        assert Neg(y) == p ==> y == Neg(p);
        ReblockExcused(s, q, j, b, cx, w, s.vd[y.v].level);
      } else {
        var i :| j <= i < |s.watches[p]| && s.watches[p][i].cref == cx;
        assert i != j;
        assert s'.watches[p][i].cref == cx;
      }
    }
  }

  lemma ReblockExcused(s: State, q: nat, j: nat, b: Lit, cx: CRef, w: nat, l: nat)
    requires q < |s.trail| && s.trail[q] in s.watches && j < |s.watches[s.trail[q]]|
    requires Excused(s.ca, s.watches, s.assigns, s.vd, cx, w, l)
    requires Neg(s.ca[cx].lits[w]) == s.trail[q] ==> cx != s.watches[s.trail[q]][j].cref
    ensures var s' := s.(watches := Reblock(s.watches, s.trail[q], j, b));
            Excused(s'.ca, s'.watches, s'.assigns, s'.vd, cx, w, l)
  {
    var x := Neg(s.ca[cx].lits[w]);
    if x in s.watches {
      ReblockKeeps(s.watches, s.trail[q], j, b, x, cx);
    }
    ExcusedKept(s, cx, w, l, s.(watches := Reblock(s.watches, s.trail[q], j, b)), cx);
  }

  // ---------------------------------------------------------------- permuting a clause

  /** Exchange literals i and k of clause cr. */
  function SwapIn(ca: Region, cr: CRef, i: nat, k: nat): Region
    requires 0 <= cr < |ca| && i < |ca[cr].lits| && k < |ca[cr].lits|
  {
    ca[cr := ca[cr].(lits := Swap(ca[cr].lits, i, k))]
  }

  lemma SwapInDb(ca: Region, cr: CRef, i: nat, k: nat, n: nat)
    requires Live(ca, cr) && i < |ca[cr].lits| && k < |ca[cr].lits| && DbOk(ca, n)
    ensures SameDb(ca, SwapIn(ca, cr, i, k)) && DbOk(SwapIn(ca, cr, i, k), n)
  {
    SwapSame(ca[cr].lits, i, k);
    var cb := SwapIn(ca, cr, i, k);
    forall cx | Live(cb, cx) ensures ClauseOk(cb[cx].lits, n) {
      assert Live(ca, cx) && ClauseOk(ca[cx].lits, n);
    }
  }

  /** A clause whose first literal is not true is nobody's reason, so permuting it disturbs no reason. */
  lemma SwapInReasons(s: State, cr: CRef, i: nat, k: nat)
    requires Struct(s) && Live(s.ca, cr) && i < |s.ca[cr].lits| && k < |s.ca[cr].lits|
    requires !IsTrue(s.assigns, s.ca[cr].lits[0])
    ensures ReasonOk(SwapIn(s.ca, cr, i, k), s.assigns, s.trail, s.lim, s.vd, s.pos)
  {
    var cb := SwapIn(s.ca, cr, i, k);
    forall t | 0 <= t < |s.trail|
      ensures
        && s.trail[t].v < |s.vd|
        && var d := s.vd[s.trail[t].v];
        if d.reason == CREF_UNDEF then
          d.level == 0 || (d.level <= |s.lim| && s.lim[d.level - 1] == t)
        else
          ReasonAt(cb, s.assigns, s.pos, s.trail[t], d.reason, t)
    {
      var d := s.vd[s.trail[t].v];
      if d.reason != CREF_UNDEF {
        assert ReasonAt(s.ca, s.assigns, s.pos, s.trail[t], d.reason, t);
        assert IsTrue(s.assigns, s.trail[t]);
        assert d.reason != cr;
      }
    }
  }

  lemma SwapInPartial(s: State, q: nat, j: nat, cr: CRef)
    requires q < |s.trail| && s.trail[q] in s.watches && PartialWatch(s, q, j)
    requires Live(s.ca, cr) && |s.ca[cr].lits| >= 2
    ensures PartialWatch(s.(ca := SwapIn(s.ca, cr, 0, 1)), q, j)
  {
    var s' := s.(ca := SwapIn(s.ca, cr, 0, 1));
    var p := s.trail[q];
    forall cx, w: nat | Live(s'.ca, cx) && FalseWatch(s'.ca[cx].lits, w, s'.assigns, s'.vd, s'.pos, q + 1)
      ensures
        || Excused(s'.ca, s'.watches, s'.assigns, s'.vd, cx, w, s'.vd[s'.ca[cx].lits[w].v].level)
        || (s'.ca[cx].lits[w] == Neg(p) && HasWatch(s'.watches[p], cx, j))
    {
      var u: nat := if cx != cr then w else 1 - w;
      assert s.ca[cx].lits[u] == s'.ca[cx].lits[w];
      assert FalseWatch(s.ca[cx].lits, u, s.assigns, s.vd, s.pos, q + 1);
      if Excused(s.ca, s.watches, s.assigns, s.vd, cx, u, s.vd[s.ca[cx].lits[u].v].level) {
        assert s.ca[cx].lits[1 - u] == s'.ca[cx].lits[1 - w];
      }
    }
  }

  lemma SwapInLists(ca: Region, watches: Watches, cr: CRef)
    requires WatchLists(ca, watches) && Live(ca, cr) && |ca[cr].lits| >= 2
    ensures WatchLists(SwapIn(ca, cr, 0, 1), watches)
  {
    var cb := SwapIn(ca, cr, 0, 1);
    SwapSame(ca[cr].lits, 0, 1);
    forall x, i | x in watches && 0 <= i < |watches[x]|
      ensures WatcherOk(cb, x, watches[x][i]) && Live(cb, watches[x][i].cref)
    {
      assert WatcherOk(ca, x, watches[x][i]);
    }
    forall cx, w | Live(cb, cx) && 0 <= w < 2 && w < |cb[cx].lits|
      ensures Neg(cb[cx].lits[w]) in watches && HasWatch(watches[Neg(cb[cx].lits[w])], cx, 0)
    {
      var u := if cx == cr then 1 - w else w;
      assert ca[cx].lits[u] == cb[cx].lits[w];
    }
  }

  /** Put the false literal ~p of the visited clause in position 1. */
  lemma Normalise(s: State, q: nat, j: nat, cr: CRef)
    requires RoundInv(s, q, j)
    requires Live(s.ca, cr) && |s.ca[cr].lits| >= 2 && s.ca[cr].lits[0] == Neg(s.trail[q])
    ensures RoundInv(s.(ca := SwapIn(s.ca, cr, 0, 1)), q, j)
    ensures SameDb(s.ca, SwapIn(s.ca, cr, 0, 1))
  {
    SwapInDb(s.ca, cr, 0, 1, |s.assigns|);
    SwapInReasons(s, cr, 0, 1);
    SwapInPartial(s, q, j, cr);
    SwapInLists(s.ca, s.watches, cr);
  }

  // ---------------------------------------------------------------- moving a watch

  /** Drop watcher j of p and watch literal x instead, with the given blocker. */
  function Rewatch(watches: Watches, p: Lit, j: nat, x: Lit, b: Lit): Watches
    requires p in watches && j < |watches[p]| && Neg(x) in watches && Neg(x) != p
  {
    var w := Watcher(watches[p][j].cref, b);
    watches[p := watches[p][..j] + watches[p][j + 1..]][Neg(x) := watches[Neg(x)] + [w]]
  }

  /** The positions of the old list that survive dropping element j. */
  lemma DropAt<T>(ws: seq<T>, j: nat, i: nat)
    requires j < |ws| && i < |ws| && i != j
    ensures var d := ws[..j] + ws[j + 1..];
            var i' := if i < j then i else i - 1;
            0 <= i' < |d| && d[i'] == ws[i]
  {
  }

  lemma RewatchHas(watches: Watches, p: Lit, j: nat, x: Lit, b: Lit, y: Lit, cx: CRef, from: nat)
    requires p in watches && j < |watches[p]| && Neg(x) in watches && Neg(x) != p
    requires y in watches && HasWatch(watches[y], cx, from)
    requires (y == p ==> cx != watches[p][j].cref && from <= j)
    ensures HasWatch(Rewatch(watches, p, j, x, b)[y], cx, from)
  {
    var i :| from <= i < |watches[y]| && watches[y][i].cref == cx;
    var watches': Watches := Rewatch(watches, p, j, x, b);
    if y == p {
      DropAt(watches[p], j, i);
      assert watches'[p][if i < j then i else i - 1].cref == cx;
    } else {
      assert watches'[y][i].cref == cx;
    }
  }

  lemma RewatchUnique(ca: Region, watches: Watches, p: Lit, j: nat, x: Lit, b: Lit)
    requires WatchSound(ca, watches)
    requires p in watches && j < |watches[p]| && Neg(x) in watches && Neg(x) != p
    requires forall i :: 0 <= i < |watches[Neg(x)]| ==> watches[Neg(x)][i].cref != watches[p][j].cref
    ensures var watches': Watches := Rewatch(watches, p, j, x, b);
            forall y, i, k :: y in watches' && 0 <= i < k < |watches'[y]| ==>
              watches'[y][i].cref != watches'[y][k].cref
  {
    var watches': Watches := Rewatch(watches, p, j, x, b);
    forall y, i, k | y in watches' && 0 <= i < k < |watches'[y]|
      ensures watches'[y][i].cref != watches'[y][k].cref
    {
      if y == p {
        assert watches'[p] == watches[p][..j] + watches[p][j + 1..];
        assert watches'[p][i] == watches[p][if i < j then i else i + 1];
        assert watches'[p][k] == watches[p][if k < j then k else k + 1];
      } else if y == Neg(x) && k == |watches[y]| {
      } else {
        assert watches'[y][i] == watches[y][i] && watches'[y][k] == watches[y][k];
      }
    }
  }

  lemma RewatchLists(ca: Region, watches: Watches, p: Lit, j: nat, k: nat, n: nat)
    requires WatchLists(ca, watches) && DbOk(ca, n) && p in watches && j < |watches[p]|
    requires Live(ca, watches[p][j].cref)
    requires var c := ca[watches[p][j].cref].lits;
             2 <= k < |c| && c[1] == Neg(p) && c[k] != Neg(p) && Neg(c[k]) in watches
    ensures var cr := watches[p][j].cref;
            var c := ca[cr].lits;
            WatchLists(SwapIn(ca, cr, 1, k), Rewatch(watches, p, j, c[k], c[0]))
  {
    var cr := watches[p][j].cref;
    var c := ca[cr].lits;
    var x := c[k];
    var cb := SwapIn(ca, cr, 1, k);
    assert ClauseOk(c, n);
    SwapSame(c, 1, k);
    assert Neg(x) != p by { assert Neg(Neg(x)) == x; }
    var watches': Watches := Rewatch(watches, p, j, x, c[0]);
    forall i | 0 <= i < |watches[Neg(x)]| ensures watches[Neg(x)][i].cref != cr {
      assert WatcherOk(ca, Neg(x), watches[Neg(x)][i]);
      assert Neg(Neg(x)) == x && c[0] != c[k] && c[1] != c[k];
    }
    RewatchUnique(ca, watches, p, j, x, c[0]);
    forall y, i | y in watches' && 0 <= i < |watches'[y]|
      ensures WatcherOk(cb, y, watches'[y][i]) && Live(cb, watches'[y][i].cref)
    {
      RewatchSoundAt(ca, watches, p, j, k, y, i);
    }
    forall cx, w | Live(cb, cx) && 0 <= w < 2 && w < |cb[cx].lits|
      ensures Neg(cb[cx].lits[w]) in watches' && HasWatch(watches'[Neg(cb[cx].lits[w])], cx, 0)
    {
      var y := Neg(cb[cx].lits[w]);
      if cx == cr && w == 1 {
        assert watches'[y][|watches[y]|].cref == cr;
      } else {
        assert cb[cx].lits[w] == ca[cx].lits[w];
        assert HasWatch(watches[y], cx, 0);
        if y == p && cx == cr {
          assert false;
        }
        RewatchHas(watches, p, j, x, c[0], y, cx, 0);
      }
    }
  }

  /** Exchanging position 1 of clause cr leaves a watcher sound unless it relied on that position. */
  lemma SwapWatcherOk(ca: Region, cr: CRef, k: nat, y: Lit, w: Watcher)
    requires Live(ca, cr) && 2 <= k < |ca[cr].lits|
    requires WatcherOk(ca, y, w) && (w.cref == cr ==> ca[cr].lits[0] == Neg(y))
    ensures WatcherOk(SwapIn(ca, cr, 1, k), y, w)
  {
    SwapSame(ca[cr].lits, 1, k);
  }

  lemma RewatchSoundAt(ca: Region, watches: Watches, p: Lit, j: nat, k: nat, y: Lit, i: nat)
    requires WatchLists(ca, watches) && p in watches && j < |watches[p]|
    requires Live(ca, watches[p][j].cref)
    requires var c := ca[watches[p][j].cref].lits;
             2 <= k < |c| && c[1] == Neg(p) && Neg(c[k]) in watches && Neg(c[k]) != p
    requires var cr := watches[p][j].cref;
             y in watches && i < |Rewatch(watches, p, j, ca[cr].lits[k], ca[cr].lits[0])[y]|
    ensures var cr := watches[p][j].cref;
            var c := ca[cr].lits;
            var w := Rewatch(watches, p, j, c[k], c[0])[y][i];
            WatcherOk(SwapIn(ca, cr, 1, k), y, w) && Live(SwapIn(ca, cr, 1, k), w.cref)
  {
    hide WatchComplete, NoDup;
    var cr := watches[p][j].cref;
    var c := ca[cr].lits;
    var x := c[k];
    var watches': Watches := Rewatch(watches, p, j, x, c[0]);
    if y == Neg(x) && i == |watches[y]| {
      SwapSame(c, 1, k);
      assert Neg(Neg(x)) == x;
    } else {
      var i0 := if y == p && i >= j then i + 1 else i;
      assert watches'[y][i] == watches[y][i0];
      var w := watches[y][i0];
      assert WatcherOk(ca, y, w) && Live(ca, w.cref);
      if w.cref == cr {
        assert y != p;
        assert Neg(Neg(y)) == y && Neg(Neg(p)) == p;
        assert ca[cr].lits[0] == Neg(y);
      }
      SwapWatcherOk(ca, cr, k, y, w);
    }
  }

  lemma RewatchKeeps(watches: Watches, p: Lit, j: nat, x: Lit, b: Lit, y: Lit, cx: CRef)
    requires p in watches && j < |watches[p]| && Neg(x) in watches && Neg(x) != p && y in watches
    requires y == p ==> cx != watches[p][j].cref
    ensures WatchersKept(watches[y], cx, Rewatch(watches, p, j, x, b)[y], cx)
  {
    var watches': Watches := Rewatch(watches, p, j, x, b);
    forall z: Lit | Watcher(cx, z) in watches[y] ensures Watcher(cx, z) in watches'[y] {
      var i :| 0 <= i < |watches[y]| && watches[y][i] == Watcher(cx, z);
      if y == p {
        DropAt(watches[p], j, i);
        assert watches'[p][if i < j then i else i - 1] == Watcher(cx, z);
      } else {
        assert watches'[y][i] == Watcher(cx, z);
      }
    }
  }

  /** The visited clause c, with its second literal about to give way to literal k. */
  ghost predicate Rewatchable(s: State, q: nat, j: nat, k: nat) {
    && q < |s.trail| && s.trail[q] in s.watches && j < |s.watches[s.trail[q]]|
    && var p := s.trail[q];
    && var cr := s.watches[p][j].cref;
    && Live(s.ca, cr)
    && var c := s.ca[cr].lits;
    && 2 <= k < |c| && NoDup(c)
    && c[1] == Neg(p) && IsFalse(s.assigns, c[1]) && !IsFalse(s.assigns, c[k])
    && Neg(c[k]) in s.watches && Neg(c[k]) != p
  }

  function RewatchState(s: State, q: nat, j: nat, k: nat): State
    requires Rewatchable(s, q, j, k)
  {
    var cr := s.watches[s.trail[q]][j].cref;
    var c := s.ca[cr].lits;
    s.(ca := SwapIn(s.ca, cr, 1, k), watches := Rewatch(s.watches, s.trail[q], j, c[k], c[0]))
  }

  lemma RewatchFalse(s: State, q: nat, j: nat, k: nat, cx: CRef, w: nat)
    requires Rewatchable(s, q, j, k)
    requires var s' := RewatchState(s, q, j, k);
             Live(s'.ca, cx) && FalseWatch(s'.ca[cx].lits, w, s'.assigns, s'.vd, s'.pos, q + 1)
    ensures Live(s.ca, cx) && FalseWatch(s.ca[cx].lits, w, s.assigns, s.vd, s.pos, q + 1)
    ensures RewatchState(s, q, j, k).ca[cx].lits[w] == s.ca[cx].lits[w]
    ensures cx == s.watches[s.trail[q]][j].cref ==> w == 0 && s.ca[cx].lits[0] != Neg(s.trail[q])
  {
  }

  /** The clause's other watch keeps its excuse: that was not the literal ~p, which is false. */
  lemma RewatchExcused(s: State, q: nat, j: nat, k: nat, cx: CRef, w: nat)
    requires Rewatchable(s, q, j, k)
    requires Live(s.ca, cx) && FalseWatch(s.ca[cx].lits, w, s.assigns, s.vd, s.pos, q + 1)
    requires cx == s.watches[s.trail[q]][j].cref ==> w == 0 && s.ca[cx].lits[0] != Neg(s.trail[q])
    requires Excused(s.ca, s.watches, s.assigns, s.vd, cx, w, s.vd[s.ca[cx].lits[w].v].level)
    ensures var s' := RewatchState(s, q, j, k);
            Excused(s'.ca, s'.watches, s'.assigns, s'.vd, cx, w, s.vd[s.ca[cx].lits[w].v].level)
  {
    var p := s.trail[q];
    var cr := s.watches[p][j].cref;
    var c := s.ca[cr].lits;
    var y := Neg(s.ca[cx].lits[w]);
    assert Neg(y) == s.ca[cx].lits[w];
    if y in s.watches {
      RewatchKeeps(s.watches, p, j, c[k], c[0], y, cx);
    }
    var s' := s.(watches := Rewatch(s.watches, p, j, c[k], c[0]));
    ExcusedKept(s, cx, w, s.vd[s.ca[cx].lits[w].v].level, s', cx);
  }

  lemma RewatchPartial(s: State, q: nat, j: nat, k: nat)
    requires Rewatchable(s, q, j, k) && PartialWatch(s, q, j)
    ensures PartialWatch(RewatchState(s, q, j, k), q, j)
  {
    var p := s.trail[q];
    var cr := s.watches[p][j].cref;
    var c := s.ca[cr].lits;
    var s' := RewatchState(s, q, j, k);
    forall cx, w: nat | Live(s'.ca, cx) && FalseWatch(s'.ca[cx].lits, w, s'.assigns, s'.vd, s'.pos, q + 1)
      ensures
        || Excused(s'.ca, s'.watches, s'.assigns, s'.vd, cx, w, s'.vd[s'.ca[cx].lits[w].v].level)
        || (s'.ca[cx].lits[w] == Neg(p) && HasWatch(s'.watches[p], cx, j))
    {
      hide Excused, FalseWatch;
      RewatchFalse(s, q, j, k, cx, w);
      if Excused(s.ca, s.watches, s.assigns, s.vd, cx, w, s.vd[s.ca[cx].lits[w].v].level) {
        RewatchExcused(s, q, j, k, cx, w);
      } else {
        RewatchHas(s.watches, p, j, c[k], c[0], p, cx, j);
      }
    }
  }

  /** A literal that is not false takes over the watch of ~p. */
  lemma MoveWatch(s: State, q: nat, j: nat, k: nat)
    requires RoundInv(s, q, j) && j < |s.watches[s.trail[q]]|
    requires var c := s.ca[s.watches[s.trail[q]][j].cref].lits;
             && 2 <= k < |c| && c[1] == Neg(s.trail[q])
             && !IsTrue(s.assigns, c[0]) && !IsFalse(s.assigns, c[k])
    ensures var cr := s.watches[s.trail[q]][j].cref;
            var c := s.ca[cr].lits;
            && Neg(c[k]) in s.watches && Neg(c[k]) != s.trail[q]
            && RoundInv(s.(ca := SwapIn(s.ca, cr, 1, k),
                           watches := Rewatch(s.watches, s.trail[q], j, c[k], c[0])), q, j)
            && SameDb(s.ca, SwapIn(s.ca, cr, 1, k))
  {
    var p := s.trail[q];
    var cr := s.watches[p][j].cref;
    var c := s.ca[cr].lits;
    assert ClauseOk(c, |s.assigns|);
    assert c[k] in c;
    assert Neg(c[k]) != p by {
      assert Neg(Neg(c[k])) == c[k];
      assert IsFalse(s.assigns, Neg(p));
    }
    SwapInDb(s.ca, cr, 1, k, |s.assigns|);
    SwapInReasons(s, cr, 1, k);
    RewatchLists(s.ca, s.watches, p, j, k, |s.assigns|);
    RewatchPartial(s, q, j, k);
  }

  // ---------------------------------------------------------------- implying a literal

  lemma EnqueuePartial(s: State, q: nat, j: nat, p: Lit, r: CRef)
    requires RoundInv(s, q, j) && Enqueueable(s, p, r)
    ensures PartialWatch(Enqueued(s, p, r), q, j)
  {
    EnqueueTrueKept(s, p, r);
    var s' := Enqueued(s, p, r);
    forall cr, w: nat | Live(s'.ca, cr) && FalseWatch(s'.ca[cr].lits, w, s'.assigns, s'.vd, s'.pos, q + 1)
      ensures
        || Excused(s'.ca, s'.watches, s'.assigns, s'.vd, cr, w, s'.vd[s'.ca[cr].lits[w].v].level)
        || (s'.ca[cr].lits[w] == Neg(s'.trail[q]) && HasWatch(s'.watches[s'.trail[q]], cr, j))
    {
      assert FalseWatch(s.ca[cr].lits, w, s.assigns, s.vd, s.pos, q + 1);
      if Excused(s.ca, s.watches, s.assigns, s.vd, cr, w, s.vd[s.ca[cr].lits[w].v].level) {
        ExcusedSameLists(s, cr, w, s.vd[s.ca[cr].lits[w].v].level, s');
      }
    }
  }

  /** The visited clause is unit: imply its first literal and keep the watcher. */
  lemma ImplyFirst(s: State, q: nat, j: nat)
    requires RoundInv(s, q, j) && j < |s.watches[s.trail[q]]|
    requires var c := s.ca[s.watches[s.trail[q]][j].cref].lits;
             && c[1] == Neg(s.trail[q]) && IsUndef(s.assigns, c[0])
             && forall k :: 2 <= k < |c| ==> IsFalse(s.assigns, c[k])
    ensures var cr := s.watches[s.trail[q]][j].cref;
            var x := s.ca[cr].lits[0];
            && Enqueueable(s, x, cr)
            && RoundInv(Enqueued(s, x, cr).(watches := Reblock(s.watches, s.trail[q], j, x)), q, j + 1)
  {
    var cr := s.watches[s.trail[q]][j].cref;
    var c := s.ca[cr].lits;
    var x := c[0];
    assert x in c;
    assert IsFalse(s.assigns, c[1]);
    assert ReasonAt(s.ca, s.assigns, s.pos, x, cr, |s.trail|) by {
      forall k | 1 <= k < |c| ensures IsFalse(s.assigns, c[k]) && c[k].v < |s.pos| && s.pos[c[k].v] < |s.trail| {
      }
    }
    var s' := Enqueued(s, x, cr);
    EnqueueStruct(s, x, cr);
    EnqueuePartial(s, q, j, x, cr);
    assert s'.trail[q] == s.trail[q];
    Advance(s', q, j, x);
  }

  /** A false blocker may also replace the old one while the watcher stays unvisited. */
  lemma ReblockRound(s: State, q: nat, j: nat, b: Lit)
    requires RoundInv(s, q, j) && j < |s.watches[s.trail[q]]|
    requires b in s.ca[s.watches[s.trail[q]][j].cref].lits
    ensures RoundInv(s.(watches := Reblock(s.watches, s.trail[q], j, b)), q, j)
  {
    var p := s.trail[q];
    var s' := s.(watches := Reblock(s.watches, p, j, b));
    ReblockLists(s.ca, s.watches, p, j, b);
    forall cx, w: nat | Live(s'.ca, cx) && FalseWatch(s'.ca[cx].lits, w, s'.assigns, s'.vd, s'.pos, q + 1)
      ensures
        || Excused(s'.ca, s'.watches, s'.assigns, s'.vd, cx, w, s'.vd[s'.ca[cx].lits[w].v].level)
        || (s'.ca[cx].lits[w] == Neg(p) && HasWatch(s'.watches[p], cx, j))
    {
      if s.ca[cx].lits[w] == Neg(p) && cx == s.watches[p][j].cref {
        assert s'.watches[p][j].cref == cx;
      } else if Excused(s.ca, s.watches, s.assigns, s.vd, cx, w, s.vd[s.ca[cx].lits[w].v].level) {
        assert Neg(Neg(s.ca[cx].lits[w])) == s.ca[cx].lits[w];
        ReblockExcused(s, q, j, b, cx, w, s.vd[s.ca[cx].lits[w].v].level);
      } else {
        ReblockHas(s.watches, p, j, b, p, cx, j);
      }
    }
  }

  // ---------------------------------------------------------------- compaction in place

  /** The list of p while it is being compacted: the kept prefix, then the unvisited suffix. */
  function MidList(ws: seq<Watcher>, i: nat, j: nat): seq<Watcher>
    requires j <= i <= |ws|
  {
    ws[..j] + ws[i..]
  }

  lemma KeepSlot(watches: Watches, p: Lit, ws: seq<Watcher>, i: nat, j: nat, b: Lit)
    requires j <= i < |ws| && p in watches
    ensures |MidList(ws, i, j)| > j && MidList(ws, i, j)[j] == ws[i]
    ensures watches[p := MidList(ws[j := Watcher(ws[i].cref, b)], i + 1, j + 1)]
            == Reblock(watches[p := MidList(ws, i, j)], p, j, b)
  {
    assert MidList(ws[j := Watcher(ws[i].cref, b)], i + 1, j + 1)
           == MidList(ws, i, j)[j := Watcher(ws[i].cref, b)];
  }

  lemma DropSlot(watches: Watches, p: Lit, ws: seq<Watcher>, i: nat, j: nat, x: Lit, b: Lit)
    requires j <= i < |ws| && p in watches && Neg(x) in watches && Neg(x) != p
    ensures |MidList(ws, i, j)| > j && MidList(ws, i, j)[j] == ws[i]
    ensures watches[Neg(x) := watches[Neg(x)] + [Watcher(ws[i].cref, b)]][p := MidList(ws, i + 1, j)]
            == Rewatch(watches[p := MidList(ws, i, j)], p, j, x, b)
  {
    var l := MidList(ws, i, j);
    assert MidList(ws, i + 1, j) == l[..j] + l[j + 1..];
  }

  /** What a round guarantees about the watcher to visit next. */
  lemma RoundFacts(s: State, q: nat, j: nat)
    requires RoundInv(s, q, j) && j < |s.watches[s.trail[q]]|
    ensures var cr := s.watches[s.trail[q]][j].cref;
            var b := s.watches[s.trail[q]][j].blocker;
            && Live(s.ca, cr) && ClauseOk(s.ca[cr].lits, |s.assigns|)
            && b in s.ca[cr].lits
            && (s.ca[cr].lits[0] == Neg(s.trail[q]) || s.ca[cr].lits[1] == Neg(s.trail[q]))
            && |s.vd| == |s.pos| == |s.assigns| && IsFalse(s.assigns, Neg(s.trail[q]))
            && WatchKeys(s.watches, |s.assigns|)
  {
    assert WatcherOk(s.ca, s.trail[q], s.watches[s.trail[q]][j]);
  }

  lemma RoundStruct(s: State, q: nat, j: nat)
    requires RoundInv(s, q, j)
    ensures Struct(s) && NoDeleted(s.ca, s.watches)
  {
  }

  lemma MidWhole(watches: Watches, p: Lit)
    requires p in watches
    ensures watches[p := MidList(watches[p], 0, 0)] == watches
  {
    assert MidList(watches[p], 0, 0) == watches[p];
  }

  lemma MidDone(watches: Watches, p: Lit, ws: seq<Watcher>, i: nat, j: nat)
    requires j <= i == |ws|
    ensures MidList(ws, i, j) == ws[..j] && |MidList(ws, i, j)| == j
  {
  }

  function UpTo(n: nat): (r: set<nat>)
    ensures |r| == n && forall v: nat :: v in r <==> v < n
  {
    if n == 0 then {} else UpTo(n - 1) + {n - 1}
  }

  lemma SubsetSize<T>(a: set<T>, b: set<T>)
    requires a <= b
    ensures |a| <= |b|
  {
    assert b == a + (b - a);
  }

  lemma {:induction false} VarsOfSize(assigns: seq<LBool>, trail: seq<Lit>, pos: seq<nat>, k: nat)
    requires TrailOk(assigns, trail, pos) && k <= |trail|
    ensures |VarsOf(trail[..k])| == k
  {
    if k > 0 {
      VarsOfSize(assigns, trail, pos, k - 1);
      var v := trail[k - 1].v;
      assert trail[..k] == trail[..k - 1] + [trail[k - 1]];
      assert VarsOf(trail[..k]) == VarsOf(trail[..k - 1]) + {v};
      assert pos[v] == k - 1;
      assert v !in VarsOf(trail[..k - 1]);
    }
  }

  /** Every variable is on the trail at most once. */
  lemma TrailBound(assigns: seq<LBool>, trail: seq<Lit>, pos: seq<nat>)
    requires TrailOk(assigns, trail, pos)
    ensures |trail| <= |assigns|
  {
    VarsOfSize(assigns, trail, pos, |trail|);
    assert trail[..|trail|] == trail;
    var all := UpTo(|assigns|);
    assert forall v :: v in VarsOf(trail) ==> v in all;
    SubsetSize(VarsOf(trail), all);
  }
}
