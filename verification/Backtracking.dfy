/** Undoing decision levels and adding clauses. */
module Backtracking {
  import opened Sat
  import opened SolverState
  import opened Propagation
  import opened Meaning

  /** The assignment with everything from trail position i on undone. */
  function Undone(assigns: seq<LBool>, pos: seq<nat>, i: nat): seq<LBool>
    requires |pos| == |assigns|
  {
    seq(|assigns|, v requires 0 <= v < |assigns| => if pos[v] >= i then Undef else assigns[v])
  }

  /** The state after `cancelUntil(level)`. */
  function Cancelled(s: State, level: nat): State
    requires level < |s.lim| && s.lim[level] <= |s.trail| && |s.pos| == |s.assigns|
  {
    s.(assigns := Undone(s.assigns, s.pos, s.lim[level]), trail := s.trail[..s.lim[level]], lim := s.lim[..level])
  }

  lemma CancelReasons(s: State, level: nat)
    requires Struct(s) && level < |s.lim|
    ensures var s' := Cancelled(s, level);
            ReasonOk(s'.ca, s'.assigns, s'.trail, s'.lim, s'.vd, s'.pos)
  {
    var s' := Cancelled(s, level);
    forall i | 0 <= i < |s'.trail|
      ensures
        && s'.trail[i].v < |s'.vd|
        && var d := s'.vd[s'.trail[i].v];
        if d.reason == CREF_UNDEF then
          d.level == 0 || (d.level <= |s'.lim| && s'.lim[d.level - 1] == i)
        else
          ReasonAt(s'.ca, s'.assigns, s'.pos, s'.trail[i], d.reason, i)
    {
      var d := s.vd[s.trail[i].v];
      assert AtLevel(s.lim, d.level, i);
      if d.reason != CREF_UNDEF {
        assert ReasonAt(s.ca, s.assigns, s.pos, s.trail[i], d.reason, i);
      }
    }
  }

  /** Exactly the variables above the given level lose their value. */
  lemma CancelAssigns(s: State, level: nat)
    requires |s.vd| == |s.assigns| && TrailOk(s.assigns, s.trail, s.pos) && LimOk(s.lim, |s.trail|)
    requires LevelOk(s.trail, s.lim, s.vd) && level < |s.lim|
    ensures forall v :: 0 <= v < |s.assigns| ==>
              Cancelled(s, level).assigns[v] ==
              if s.assigns[v] != Undef && s.vd[v].level <= level then s.assigns[v] else Undef
  {
    var s' := Cancelled(s, level);
    forall v | 0 <= v < |s.assigns|
      ensures s'.assigns[v] == if s.assigns[v] != Undef && s.vd[v].level <= level then s.assigns[v] else Undef
    {
      if s.assigns[v] != Undef {
        assert s.trail[s.pos[v]].v == v;
        assert AtLevel(s.lim, s.vd[v].level, s.pos[v]);
        if s.vd[v].level <= level {
          assert s.pos[v] < s.lim[level];
        } else {
          assert s.lim[level] <= s.lim[s.vd[v].level - 1] <= s.pos[v];
        }
      }
    }
  }

  lemma CancelTrail(s: State, level: nat)
    requires |s.vd| == |s.assigns| && TrailOk(s.assigns, s.trail, s.pos) && LimOk(s.lim, |s.trail|)
    requires LevelOk(s.trail, s.lim, s.vd) && level < |s.lim|
    ensures var s' := Cancelled(s, level);
            TrailOk(s'.assigns, s'.trail, s'.pos) && LimOk(s'.lim, |s'.trail|) && LevelOk(s'.trail, s'.lim, s'.vd)
  {
    var s' := Cancelled(s, level);
    forall i | 0 <= i < |s'.trail|
      ensures s'.trail[i].v < |s'.vd| && AtLevel(s'.lim, s'.vd[s'.trail[i].v].level, i)
    {
      var l := s.vd[s.trail[i].v].level;
      assert AtLevel(s.lim, l, i);
    }
    forall i | 0 <= i < |s'.trail|
      ensures s'.trail[i].v < |s'.assigns| && IsTrue(s'.assigns, s'.trail[i]) && s'.pos[s'.trail[i].v] == i
    {
      assert IsTrue(s.assigns, s.trail[i]) && s.pos[s.trail[i].v] == i;
    }
  }

  lemma CancelStruct(s: State, level: nat)
    requires Struct(s) && level < |s.lim|
    ensures Struct(Cancelled(s, level))
  {
    CancelReasons(s, level);
    CancelTrail(s, level);
  }

  lemma CancelPositions(s: State, level: nat)
    requires Struct(s) && level < |s.lim|
    ensures s.lim[level] <= |s.trail| && s.lim[level] <= LastLim(s.lim) && |s.pos| == |s.assigns| == |s.vd|
  {
  }

  /** Undoing levels keeps the watch invariant without touching a watch list. */
  lemma CancelWatchInv(s: State, level: nat)
    requires Struct(s) && level < |s.lim|
    requires WatchInv(s.ca, s.watches, s.assigns, s.vd, s.pos, LastLim(s.lim))
    ensures var s' := Cancelled(s, level); WatchInv(s'.ca, s'.watches, s'.assigns, s'.vd, s'.pos, |s'.trail|)
  {
    var s' := Cancelled(s, level);
    CancelAssigns(s, level);
    CancelPositions(s, level);
    assert DbOk(s.ca, |s.assigns|);
    hide Struct, Undone;
    forall cr, w: nat | Live(s'.ca, cr) && FalseWatch(s'.ca[cr].lits, w, s'.assigns, s'.vd, s'.pos, |s'.trail|)
      ensures Excused(s'.ca, s'.watches, s'.assigns, s'.vd, cr, w, s'.vd[s'.ca[cr].lits[w].v].level)
    {
      assert FalseWatch(s.ca[cr].lits, w, s.assigns, s.vd, s.pos, LastLim(s.lim));
      CancelExcused(s, level, cr, w, s.vd[s.ca[cr].lits[w].v].level);
    }
  }

  /** An excuse of a level that stays refers to a literal that stays. */
  lemma CancelExcused(s: State, level: nat, cr: CRef, w: nat, l: nat)
    requires Struct(s) && level < |s.lim| && l <= level && s.lim[level] <= |s.trail| && |s.pos| == |s.assigns|
    requires Excused(s.ca, s.watches, s.assigns, s.vd, cr, w, l)
    ensures var s' := Cancelled(s, level); Excused(s'.ca, s'.watches, s'.assigns, s'.vd, cr, w, l)
  {
    var s' := Cancelled(s, level);
    CancelAssigns(s, level);
    hide Struct;
    forall x | TrueAt(s.assigns, s.vd, x, l) ensures TrueAt(s'.assigns, s'.vd, x, l) {
    }
  }

  lemma CancelMeans(f: Formula, s: State, level: nat)
    requires Struct(s) && level < |s.lim| && Means(f, s)
    ensures Means(f, Cancelled(s, level))
  {
    assert Facts(Cancelled(s, level)) == Facts(s);
  }

  // ---------------------------------------------------------------- adding a clause

  /** The state after allocating the clause c and attaching it. */
  function Attached(s: State, c: seq<Lit>, learnt: bool): State
    requires |c| >= 2 && Neg(c[0]) in s.watches && Neg(c[1]) in s.watches && c[0] != c[1]
  {
    var cr := |s.ca|;
    var w1 := s.watches[Neg(c[0]) := s.watches[Neg(c[0])] + [Watcher(cr, c[1])]];
    s.(ca := s.ca + [Clause(c, learnt, 0)],
       watches := w1[Neg(c[1]) := w1[Neg(c[1])] + [Watcher(cr, c[0])]])
  }

  /** How the watch lists grow. */
  lemma AttachedLists(s: State, c: seq<Lit>, learnt: bool, p: Lit)
    requires Struct(s) && ClauseOk(c, |s.assigns|) && p in s.watches
    ensures Neg(c[0]) in s.watches && Neg(c[1]) in s.watches && c[0] != c[1]
    ensures var ws := Attached(s, c, learnt).watches[p];
            && (ws == s.watches[p] ||
                (p == Neg(c[0]) && ws == s.watches[p] + [Watcher(|s.ca|, c[1])]) ||
                (p == Neg(c[1]) && ws == s.watches[p] + [Watcher(|s.ca|, c[0])]))
            && (p == Neg(c[0]) || p == Neg(c[1]) ==> HasWatch(ws, |s.ca|, 0))
  {
    assert c[0] in c && c[1] in c;
    assert Neg(Neg(c[0])) == c[0] && Neg(Neg(c[1])) == c[1];
    var ws := Attached(s, c, learnt).watches[p];
    if p == Neg(c[0]) || p == Neg(c[1]) {
      assert ws[|s.watches[p]|].cref == |s.ca|;
    }
  }

  lemma AttachSound(s: State, c: seq<Lit>, learnt: bool)
    requires Struct(s) && ClauseOk(c, |s.assigns|)
    requires Neg(c[0]) in s.watches && Neg(c[1]) in s.watches && c[0] != c[1]
    ensures var s' := Attached(s, c, learnt); WatchSound(s'.ca, s'.watches)
  {
    var s' := Attached(s, c, learnt);
    forall p, j | p in s'.watches && 0 <= j < |s'.watches[p]|
      ensures WatcherOk(s'.ca, p, s'.watches[p][j])
    {
      AttachedLists(s, c, learnt, p);
      if j < |s.watches[p]| {
        assert WatcherOk(s.ca, p, s.watches[p][j]);
        assert s'.watches[p][j] == s.watches[p][j];
      }
    }
    forall p, i, j | p in s'.watches && 0 <= i < j < |s'.watches[p]|
      ensures s'.watches[p][i].cref != s'.watches[p][j].cref
    {
      AttachedLists(s, c, learnt, p);
      assert s'.watches[p][i] == s.watches[p][i];
      assert WatcherOk(s.ca, p, s.watches[p][i]);
    }
  }

  lemma AttachComplete(s: State, c: seq<Lit>, learnt: bool)
    requires Struct(s) && ClauseOk(c, |s.assigns|)
    requires Neg(c[0]) in s.watches && Neg(c[1]) in s.watches && c[0] != c[1]
    ensures var s' := Attached(s, c, learnt); WatchComplete(s'.ca, s'.watches)
  {
    var s' := Attached(s, c, learnt);
    forall cr, w | Live(s'.ca, cr) && 0 <= w < 2 && w < |s'.ca[cr].lits|
      ensures Neg(s'.ca[cr].lits[w]) in s'.watches
      ensures HasWatch(s'.watches[Neg(s'.ca[cr].lits[w])], cr, 0)
    {
      var p := Neg(s'.ca[cr].lits[w]);
      if cr < |s.ca| {
        assert Live(s.ca, cr) && HasWatch(s.watches[p], cr, 0);
        AttachedLists(s, c, learnt, p);
        var j :| 0 <= j < |s.watches[p]| && s.watches[p][j].cref == cr;
        assert s'.watches[p][j].cref == cr;
      } else {
        AttachedLists(s, c, learnt, p);
      }
    }
  }

  lemma AttachReasons(s: State, c: seq<Lit>, learnt: bool)
    requires Struct(s)
    ensures ReasonOk(s.ca + [Clause(c, learnt, 0)], s.assigns, s.trail, s.lim, s.vd, s.pos)
  {
    forall i | 0 <= i < |s.trail| && s.vd[s.trail[i].v].reason != CREF_UNDEF
      ensures ReasonAt(s.ca + [Clause(c, learnt, 0)], s.assigns, s.pos, s.trail[i], s.vd[s.trail[i].v].reason, i)
    {
      assert ReasonAt(s.ca, s.assigns, s.pos, s.trail[i], s.vd[s.trail[i].v].reason, i);
    }
  }

  lemma AttachStruct(s: State, c: seq<Lit>, learnt: bool)
    requires Struct(s) && ClauseOk(c, |s.assigns|)
    ensures Neg(c[0]) in s.watches && Neg(c[1]) in s.watches && c[0] != c[1]
    ensures Struct(Attached(s, c, learnt))
  {
    assert c[0] in c && c[1] in c;
    AttachReasons(s, c, learnt);
    AttachSound(s, c, learnt);
    AttachComplete(s, c, learnt);
    var s' := Attached(s, c, learnt);
    forall cr | Live(s'.ca, cr) ensures ClauseOk(s'.ca[cr].lits, |s.assigns|) {
      if cr < |s.ca| {
        assert Live(s.ca, cr);
      }
    }
  }

  /** Attaching a clause leaves the excuses of the others alone. */
  lemma AttachExcused(s: State, c: seq<Lit>, learnt: bool, cr: CRef, w: nat, l: nat)
    requires |c| >= 2 && Neg(c[0]) in s.watches && Neg(c[1]) in s.watches && c[0] != c[1]
    requires Excused(s.ca, s.watches, s.assigns, s.vd, cr, w, l)
    ensures var s' := Attached(s, c, learnt); Excused(s'.ca, s'.watches, s'.assigns, s'.vd, cr, w, l)
  {
    ExcusedKept(s, cr, w, l, Attached(s, c, learnt), cr);
  }

  /** A new clause whose watched literals are not false joins the watch invariant. */
  lemma AttachWatchInv(s: State, c: seq<Lit>, learnt: bool, q: nat)
    requires WatchInv(s.ca, s.watches, s.assigns, s.vd, s.pos, q) && |c| >= 2
    requires Neg(c[0]) in s.watches && Neg(c[1]) in s.watches && c[0] != c[1]
    requires !IsFalse(s.assigns, c[0]) && !IsFalse(s.assigns, c[1])
    ensures var s' := Attached(s, c, learnt); WatchInv(s'.ca, s'.watches, s'.assigns, s'.vd, s'.pos, q)
  {
    var s' := Attached(s, c, learnt);
    forall cr, w: nat | Live(s'.ca, cr) && FalseWatch(s'.ca[cr].lits, w, s'.assigns, s'.vd, s'.pos, q)
      ensures Excused(s'.ca, s'.watches, s'.assigns, s'.vd, cr, w, s'.vd[s'.ca[cr].lits[w].v].level)
    {
      assert Live(s.ca, cr);
      AttachExcused(s, c, learnt, cr, w, s.vd[s.ca[cr].lits[w].v].level);
    }
  }

  /** Adding an entailed clause does not change the meaning. */
  lemma LearnMeans(f: Formula, ca: Region, facts: seq<Lit>, c: seq<Lit>)
    requires SemOk(f, ca, facts) && Entails(f, c)
    ensures SemOk(f, ca + [Clause(c, true, 0)], facts)
  {
    var ca' := ca + [Clause(c, true, 0)];
    forall a: Model | SatDb(a, ca', facts) ensures SatAll(a, f) {
      forall cr | Live(ca, cr) && !ca[cr].learnt ensures SatClause(a, ca[cr].lits) {
        assert Live(ca', cr);
      }
      assert SatDb(a, ca, facts);
    }
  }

  // ---------------------------------------------------------------- the undo loop

  /** Everything from trail position i on has been unassigned. */
  ghost predicate UndoneTo(assigns0: seq<LBool>, assigns: seq<LBool>, pos: seq<nat>, i: int) {
    && |assigns| == |assigns0| == |pos|
    && forall v :: 0 <= v < |assigns| ==> assigns[v] == if pos[v] >= i then Undef else assigns0[v]
  }

  lemma UndoStart(s: State, level: nat)
    requires Struct(s) && level < |s.lim|
    ensures UndoneTo(s.assigns, s.assigns, s.pos, |s.trail|) && s.lim[level] <= |s.trail|
  {
  }

  lemma UndoStep(s: State, assigns: seq<LBool>, c: nat)
    requires Struct(s) && c < |s.trail| && UndoneTo(s.assigns, assigns, s.pos, c + 1)
    ensures s.trail[c].v < |assigns| && UndoneTo(s.assigns, assigns[s.trail[c].v := Undef], s.pos, c)
  {
    var x := s.trail[c].v;
    assert s.pos[x] == c;
    assert forall v :: 0 <= v < |s.assigns| && s.pos[v] == c && v != x ==> s.assigns[v] == Undef;
  }

  lemma UndoDone(assigns0: seq<LBool>, assigns: seq<LBool>, pos: seq<nat>, i: nat)
    requires UndoneTo(assigns0, assigns, pos, i)
    ensures |pos| == |assigns0| && assigns == Undone(assigns0, pos, i)
  {
  }
}
