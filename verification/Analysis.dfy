/** Why the clause that conflict analysis derives is a consequence of the formula. */
module Analysis {
  import opened Sat
  import opened SolverState
  import opened Propagation
  import opened Meaning

  // ---------------------------------------------------------------- resolving backwards

  /** The literal of an assigned variable that is true. */
  function TrueLit(s: State, v: Var): Lit
    requires v < |s.pos| && s.pos[v] < |s.trail|
  {
    s.trail[s.pos[v]]
  }

  predicate Assigned(s: State, v: Var) {
    v < |s.assigns| && v < |s.pos| && v < |s.vd| && s.pos[v] < |s.trail| && s.trail[s.pos[v]].v == v
    && s.assigns[v] != Undef
  }

  ghost predicate HasVar(c: seq<Lit>, v: Var) {
    exists k :: 0 <= k < |c| && c[k].v == v
  }

  /** a satisfies the derived clause: the literals `out`, and the falsified literals of `open`. */
  ghost predicate SatDerived(a: Model, s: State, out: seq<Lit>, open: set<Var>) {
    || SatClause(a, out)
    || exists v :: v in open && Assigned(s, v) && !Holds(a, TrueLit(s, v))
  }

  ghost predicate SatFrom(a: Model, c: seq<Lit>, j: nat) {
    exists k :: j <= k < |c| && Holds(a, c[k])
  }

  /** Every model of f satisfies the derived clause, or one of the literals of c from j on. */
  ghost predicate Pending(f: Formula, s: State, out: seq<Lit>, open: set<Var>, c: seq<Lit>, j: nat) {
    forall a: Model :: SatAll(a, f) ==> SatDerived(a, s, out, open) || SatFrom(a, c, j)
  }

  /** The bookkeeping of `analyze`: what is in `out`, what is still open, and the `seen` marks. */
  ghost predicate Marks(s: State, seen: seq<bool>, out: seq<Lit>, open: set<Var>) {
    && |seen| == |s.assigns| == |s.vd| == |s.pos|
    && NoPair(out)
    && (forall k :: 0 <= k < |out| ==>
          IsFalse(s.assigns, out[k]) && 0 < s.vd[out[k].v].level < |s.lim| && seen[out[k].v])
    && (forall v :: v in open ==> Assigned(s, v) && s.vd[v].level == |s.lim| && seen[v])
    && (forall v :: 0 <= v < |seen| && seen[v] ==> v in open || HasVar(out, v))
  }

  lemma FalseAssigned(s: State, x: Lit)
    requires Struct(s) && IsFalse(s.assigns, x)
    ensures Assigned(s, x.v) && TrueLit(s, x.v) == Neg(x) && s.vd[x.v].level <= |s.lim|
  {
    assert s.trail[s.pos[x.v]].v == x.v;
    assert AtLevel(s.lim, s.vd[x.v].level, s.pos[x.v]);
  }

  lemma PendingStart(f: Formula, s: State, cr: CRef)
    requires Means(f, s) && Live(s.ca, cr)
    ensures Pending(f, s, [], {}, s.ca[cr].lits, 0)
  {
    var c := s.ca[cr].lits;
    forall a: Model | SatAll(a, f) ensures SatFrom(a, c, 0) {
      assert SatClause(a, c);
      var x :| x in c && Holds(a, x);
      var k :| 0 <= k < |c| && c[k] == x;
    }
  }

  /** Resolving on p with its reason: p leaves the open literals, the rest of the clause is pending. */
  lemma PendingResolve(f: Formula, s: State, out: seq<Lit>, open: set<Var>, p: Lit, cr: CRef, d: seq<Lit>)
    requires Pending(f, s, out, open + {p.v}, d, |d|)
    requires Means(f, s) && Live(s.ca, cr) && |s.ca[cr].lits| > 0 && s.ca[cr].lits[0] == p
    requires Assigned(s, p.v) && TrueLit(s, p.v) == p
    ensures Pending(f, s, out, open, s.ca[cr].lits, 1)
  {
    var c := s.ca[cr].lits;
    forall a: Model | SatAll(a, f) ensures SatDerived(a, s, out, open) || SatFrom(a, c, 1) {
      assert SatDerived(a, s, out, open + {p.v});
      if !SatDerived(a, s, out, open) {
        assert !Holds(a, p);
        assert SatClause(a, c);
        var x :| x in c && Holds(a, x);
        var k :| 0 <= k < |c| && c[k] == x;
      }
    }
  }

  /** A literal already marked, or false at level 0, adds nothing. */
  lemma PendingSkip(f: Formula, s: State, seen: seq<bool>, out: seq<Lit>, open: set<Var>, c: seq<Lit>, j: nat)
    requires Struct(s) && Means(f, s) && Marks(s, seen, out, open)
    requires j < |c| && IsFalse(s.assigns, c[j]) && Pending(f, s, out, open, c, j)
    requires seen[c[j].v] || s.vd[c[j].v].level == 0
    ensures Pending(f, s, out, open, c, j + 1)
  {
    var q := c[j];
    FalseAssigned(s, q);
    forall a: Model | SatAll(a, f) ensures SatDerived(a, s, out, open) || SatFrom(a, c, j + 1) {
      if SatFrom(a, c, j) && !SatFrom(a, c, j + 1) {
        var k :| j <= k < |c| && Holds(a, c[k]);
        assert k == j;
        if s.vd[q.v].level == 0 {
          RootFalse(f, s, q);
          UnitHolds(f, Neg(q), a);
        } else if q.v in open {
          assert !Holds(a, TrueLit(s, q.v));
        } else {
          var i :| 0 <= i < |out| && out[i].v == q.v;
          assert out[i] == q;
        }
      }
    }
  }

  /** A literal below the current level joins the learnt clause. */
  lemma PendingOut(f: Formula, s: State, out: seq<Lit>, open: set<Var>, c: seq<Lit>, j: nat)
    requires j < |c| && Pending(f, s, out, open, c, j)
    ensures Pending(f, s, out + [c[j]], open, c, j + 1)
  {
    var q := c[j];
    forall a: Model | SatAll(a, f) ensures SatDerived(a, s, out + [q], open) || SatFrom(a, c, j + 1) {
      if SatClause(a, out) {
        var x :| x in out && Holds(a, x);
        assert x in out + [q];
      } else if !SatDerived(a, s, out, open) && !SatFrom(a, c, j + 1) {
        var k :| j <= k < |c| && Holds(a, c[k]);
        assert k == j && q in out + [q];
      }
    }
  }

  /** A literal of the current level becomes open. */
  lemma PendingOpen(f: Formula, s: State, out: seq<Lit>, open: set<Var>, c: seq<Lit>, j: nat)
    requires Struct(s)
    requires j < |c| && Pending(f, s, out, open, c, j) && IsFalse(s.assigns, c[j])
    ensures Pending(f, s, out, open + {c[j].v}, c, j + 1)
  {
    var q := c[j];
    FalseAssigned(s, q);
    forall a: Model | SatAll(a, f) ensures SatDerived(a, s, out, open + {q.v}) || SatFrom(a, c, j + 1) {
      if SatFrom(a, c, j) && !SatFrom(a, c, j + 1) {
        var k :| j <= k < |c| && Holds(a, c[k]);
        assert k == j;
        assert q.v in open + {q.v} && !Holds(a, TrueLit(s, q.v));
      }
    }
  }

  /** With a single open literal left, the derived clause is entailed. */
  lemma DerivedEntailed(f: Formula, s: State, out: seq<Lit>, p: Lit, d: seq<Lit>)
    requires Pending(f, s, out, {p.v}, d, |d|) && Assigned(s, p.v) && TrueLit(s, p.v) == p
    ensures Entails(f, [Neg(p)] + out)
  {
    var c := [Neg(p)] + out;
    forall a: Model | SatAll(a, f) ensures SatClause(a, c) {
      assert SatDerived(a, s, out, {p.v});
      if SatClause(a, out) {
        var x :| x in out && Holds(a, x);
        assert x in c;
      } else {
        assert c[0] in c;
      }
    }
  }

  // ---------------------------------------------------------------- minimisation

  /** Every literal in the reason of v, other than its own, is at level 0 or marked. */
  ghost predicate Covered(s: State, seen: seq<bool>, v: Var) {
    && Assigned(s, v)
    && s.vd[v].reason != CREF_UNDEF
    && Live(s.ca, s.vd[v].reason)
    && forall k :: 1 <= k < |s.ca[s.vd[v].reason].lits| ==>
         var x := s.ca[s.vd[v].reason].lits[k];
         x.v < |s.vd| && x.v < |seen| && (s.vd[x.v].level == 0 || seen[x.v])
  }

  /** Each marked variable is in the clause or covered by marked ones. */
  ghost predicate MarksCovered(s: State, seen: seq<bool>, c: seq<Lit>) {
    && |seen| == |s.assigns|
    && forall v :: 0 <= v < |seen| && seen[v] ==> Assigned(s, v) && (HasVar(c, v) || Covered(s, seen, v))
  }

  /** If a model falsifies the kept literals, it agrees with the trail on every marked variable. */
  lemma {:induction false} MarkedHold(f: Formula, s: State, seen: seq<bool>, kept: seq<Lit>, a: Model, v: Var)
    requires Struct(s) && Means(f, s) && SatAll(a, f)
    requires MarksCovered(s, seen, kept)
    requires forall k :: 0 <= k < |kept| ==> IsFalse(s.assigns, kept[k]) && !Holds(a, kept[k])
    requires v < |seen| && seen[v]
    ensures Assigned(s, v) && Holds(a, TrueLit(s, v))
    decreases if v < |s.pos| then s.pos[v] else 0
  {
    if HasVar(kept, v) {
      var k :| 0 <= k < |kept| && kept[k].v == v;
      FalseAssigned(s, kept[k]);
    } else {
      var r := s.vd[v].reason;
      var c := s.ca[r].lits;
      var i := s.pos[v];
      assert ReasonAt(s.ca, s.assigns, s.pos, s.trail[i], r, i);
      assert SatClause(a, c);
      var x :| x in c && Holds(a, x);
      var k :| 0 <= k < |c| && c[k] == x;
      if k > 0 {
        FalseAssigned(s, x);
        if s.vd[x.v].level == 0 {
          RootFalse(f, s, x);
          UnitHolds(f, Neg(x), a);
        } else {
          MarkedHold(f, s, seen, kept, a, x.v);
        }
        assert false;
      }
    }
  }

  /** The literals of `out` fail in every model that falsifies the kept ones. */
  lemma MarkedFail(f: Formula, s: State, seen: seq<bool>, kept: seq<Lit>, a: Model, x: Lit)
    requires Struct(s) && Means(f, s) && SatAll(a, f)
    requires MarksCovered(s, seen, kept)
    requires forall k :: 0 <= k < |kept| ==> IsFalse(s.assigns, kept[k])
    requires !SatClause(a, kept) && IsFalse(s.assigns, x) && seen[x.v]
    ensures !Holds(a, x)
  {
    forall k | 0 <= k < |kept| ensures !Holds(a, kept[k]) {
      assert kept[k] in kept;
    }
    MarkedHold(f, s, seen, kept, a, x.v);
    FalseAssigned(s, x);
  }

  /** Dropping covered literals leaves an entailed clause. */
  lemma MinimisedEntailed(f: Formula, s: State, seen: seq<bool>, u: Lit, out: seq<Lit>, kept: seq<Lit>)
    requires Struct(s) && Means(f, s) && Entails(f, [u] + out)
    requires MarksCovered(s, seen, kept)
    requires forall k :: 0 <= k < |out| ==> IsFalse(s.assigns, out[k]) && seen[out[k].v]
    requires forall k :: 0 <= k < |kept| ==> IsFalse(s.assigns, kept[k])
    ensures Entails(f, [u] + kept)
  {
    forall a: Model | SatAll(a, f) ensures SatClause(a, [u] + kept) {
      assert SatClause(a, [u] + out);
      var x :| x in [u] + out && Holds(a, x);
      if SatClause(a, kept) {
        var y :| y in kept && Holds(a, y);
        assert y in [u] + kept;
      } else if x != u {
        hide MarksCovered, Struct, Means;
        MarkedFail(f, s, seen, kept, a, x);
      } else {
        assert ([u] + kept)[0] == u;
      }
    }
  }

  // ---------------------------------------------------------------- marks

  lemma MarksOut(s: State, seen: seq<bool>, out: seq<Lit>, open: set<Var>, q: Lit)
    requires Marks(s, seen, out, open) && IsFalse(s.assigns, q) && !seen[q.v]
    requires 0 < s.vd[q.v].level < |s.lim|
    ensures Marks(s, seen[q.v := true], out + [q], open)
  {
    var seen', out' := seen[q.v := true], out + [q];
    forall v | 0 <= v < |seen'| && seen'[v] ensures v in open || HasVar(out', v) {
      if v == q.v {
        assert out'[|out|].v == v;
      } else if v !in open {
        var k :| 0 <= k < |out| && out[k].v == v;
        assert out'[k].v == v;
      }
    }
  }

  lemma MarksOpen(s: State, seen: seq<bool>, out: seq<Lit>, open: set<Var>, q: Lit)
    requires Struct(s)
    requires Marks(s, seen, out, open) && IsFalse(s.assigns, q) && !seen[q.v]
    requires s.vd[q.v].level == |s.lim|
    ensures Marks(s, seen[q.v := true], out, open + {q.v}) && q.v !in open
  {
    FalseAssigned(s, q);
  }

  /** A marked variable at or above the current level is open. */
  lemma MarkedOpen(s: State, seen: seq<bool>, out: seq<Lit>, open: set<Var>, v: Var)
    requires Marks(s, seen, out, open) && v < |seen| && seen[v] && s.vd[v].level >= |s.lim|
    ensures v in open
  {
  }

  lemma MarksClose(s: State, seen: seq<bool>, out: seq<Lit>, open: set<Var>, v: Var)
    requires Marks(s, seen, out, open) && v in open
    ensures Marks(s, seen[v := false], out, open - {v})
  {
    var seen' := seen[v := false];
    forall k | 0 <= k < |out| ensures seen'[out[k].v] {
      assert s.vd[out[k].v].level < |s.lim|;
    }
  }

  /** An open variable sits on the part of the trail that belongs to the current level. */
  lemma OpenPosition(s: State, seen: seq<bool>, out: seq<Lit>, open: set<Var>, v: Var)
    requires Struct(s) && Marks(s, seen, out, open) && v in open
    ensures Assigned(s, v) && LastLim(s.lim) <= s.pos[v]
  {
    assert AtLevel(s.lim, s.vd[v].level, s.pos[v]);
  }

  /** Only the first literal of the current level can lack a reason. */
  lemma OpenReason(s: State, u: Var, v: Var)
    requires Struct(s) && Assigned(s, u) && Assigned(s, v) && s.lim != []
    requires LastLim(s.lim) <= s.pos[u] < s.pos[v] && s.vd[v].level == |s.lim|
    ensures s.vd[v].reason != CREF_UNDEF
    ensures ReasonAt(s.ca, s.assigns, s.pos, TrueLit(s, v), s.vd[v].reason, s.pos[v])
  {
    assert s.trail[s.pos[v]].v == v;
  }

  /** Every open variable was assigned before trail position `bound`. */
  ghost predicate OpenBelow(pos: seq<nat>, open: set<Var>, bound: nat) {
    forall v :: v in open ==> v < |pos| && pos[v] < bound
  }

  /** Every literal of c in positions j..k that belongs to the current level l is open. */
  ghost predicate LevelOpen(vd: seq<VarData>, c: seq<Lit>, open: set<Var>, l: nat, j: nat, k: nat) {
    forall i :: j <= i < k && i < |c| && c[i].v < |vd| && vd[c[i].v].level == l ==> c[i].v in open
  }

  lemma AddStart(vd: seq<VarData>, c: seq<Lit>, open: set<Var>, l: nat, j: nat)
    ensures LevelOpen(vd, c, open, l, j, j)
  {
  }

  lemma AddStep(pos: seq<nat>, vd: seq<VarData>, c: seq<Lit>, open: set<Var>, open': set<Var>, l: nat, j: nat, k: nat,
                bound: nat)
    requires OpenBelow(pos, open, bound) && LevelOpen(vd, c, open, l, j, k) && LevelOpen(vd, c, open', l, k, k + 1)
    requires k < |c| && c[k].v < |pos| && pos[c[k].v] < bound && (open' == open || open' == open + {c[k].v})
    ensures OpenBelow(pos, open', bound) && LevelOpen(vd, c, open', l, j, k + 1)
  {
  }

  lemma AddableLit(s: State, seen: seq<bool>, out: seq<Lit>, open: set<Var>, q: Lit)
    requires Struct(s) && Marks(s, seen, out, open) && IsFalse(s.assigns, q)
    ensures q.v < |seen| == |s.vd| == |s.pos| == |s.assigns| && s.vd[q.v].level <= |s.lim|
    ensures s.vd[q.v].level == |s.lim| && seen[q.v] ==> q.v in open
  {
    FalseAssigned(s, q);
  }

  lemma PendingDone(f: Formula, s: State, out: seq<Lit>, open: set<Var>, c: seq<Lit>)
    requires Pending(f, s, out, open, c, |c|)
    ensures Pending(f, s, out, open, [], 0)
  {
    forall a: Model | SatAll(a, f) ensures SatDerived(a, s, out, open) {
      assert !SatFrom(a, c, |c|);
    }
  }

  /** The marked literal p at trail position i is the last open one. */
  ghost predicate LastOpen(s: State, open: set<Var>, p: Lit, i: nat) {
    && p.v in open && Assigned(s, p.v) && TrueLit(s, p.v) == p && s.pos[p.v] == i
    && LastLim(s.lim) <= i && OpenBelow(s.pos, open - {p.v}, i)
    && s.vd[p.v].level == |s.lim|
  }

  /** If anything is still open besides p, then p was implied by a clause. */
  lemma LastOpenReason(s: State, seen: seq<bool>, out: seq<Lit>, open: set<Var>, p: Lit, i: nat)
    requires Struct(s) && Marks(s, seen, out, open) && s.lim != [] && LastOpen(s, open, p, i)
    requires open - {p.v} != {}
    ensures s.vd[p.v].reason != CREF_UNDEF
    ensures ReasonAt(s.ca, s.assigns, s.pos, p, s.vd[p.v].reason, i)
  {
    var u :| u in open - {p.v};
    OpenPosition(s, seen, out, open, u);
    OpenReason(s, u, p.v);
  }

  /** The open variables of a conflict clause all lie on the trail, and there is one. */
  lemma ConflictOpen(s: State, confl: CRef, q: nat, open: set<Var>)
    requires Struct(s) && LastLim(s.lim) <= q < |s.trail| && Conflicting(s.ca, s.assigns, confl, s.trail[q])
    requires LevelOpen(s.vd, s.ca[confl].lits, open, |s.lim|, 0, |s.ca[confl].lits|)
    ensures open != {}
  {
    CurrentLevel(s, q);
    var x := Neg(s.trail[q]);
    var k :| 0 <= k < |s.ca[confl].lits| && s.ca[confl].lits[k] == x;
    assert x.v in open;
  }

  lemma ConflictBelow(s: State, confl: CRef, p: Lit)
    requires Struct(s) && Conflicting(s.ca, s.assigns, confl, p)
    ensures forall k :: 0 <= k < |s.ca[confl].lits| ==>
              var q := s.ca[confl].lits[k];
              IsFalse(s.assigns, q) && q.v < |s.pos| && s.pos[q.v] < |s.trail|
  {
    forall k | 0 <= k < |s.ca[confl].lits|
      ensures var q := s.ca[confl].lits[k];
              IsFalse(s.assigns, q) && q.v < |s.pos| && s.pos[q.v] < |s.trail|
    {
      FalseAssigned(s, s.ca[confl].lits[k]);
    }
  }

  lemma NoMarks(s: State, seen: seq<bool>)
    requires Struct(s) && |seen| == |s.assigns| && forall v :: 0 <= v < |seen| ==> !seen[v]
    ensures Marks(s, seen, [], {})
  {
  }

  lemma LastOpenFacts(s: State, open: set<Var>, p: Lit, i: nat)
    requires LastOpen(s, open, p, i)
    ensures p.v in open && Assigned(s, p.v) && TrueLit(s, p.v) == p && s.pos[p.v] == i
    ensures OpenBelow(s.pos, open - {p.v}, i) && s.vd[p.v].level == |s.lim| && LastLim(s.lim) <= i
  {
  }

  lemma TailBelow(s: State, cr: CRef, i: nat)
    requires Live(s.ca, cr) && TailFalse(s.ca[cr].lits, s.assigns, s.pos, i)
    ensures forall k :: 1 <= k < |s.ca[cr].lits| ==>
              var q := s.ca[cr].lits[k];
              IsFalse(s.assigns, q) && q.v < |s.pos| && s.pos[q.v] < i
  {
  }

  /** While something is open, the downward walk stays on the current level's part of the trail. */
  lemma WalkBound(s: State, seen: seq<bool>, out: seq<Lit>, open: set<Var>, i: int)
    requires Struct(s) && Marks(s, seen, out, open) && open != {} && -1 <= i < |s.trail|
    requires OpenBelow(s.pos, open, i + 1)
    ensures LastLim(s.lim) <= i && s.trail[i].v < |seen|
  {
    var u :| u in open;
    OpenPosition(s, seen, out, open, u);
  }

  lemma WalkDown(s: State, seen: seq<bool>, out: seq<Lit>, open: set<Var>, i: nat)
    requires Struct(s) && Marks(s, seen, out, open) && i < |s.trail| && s.trail[i].v < |seen|
    requires OpenBelow(s.pos, open, i + 1) && !seen[s.trail[i].v]
    ensures OpenBelow(s.pos, open, i)
  {
    forall v | v in open ensures v < |s.pos| && s.pos[v] < i {
      OpenPosition(s, seen, out, open, v);
    }
  }

  lemma WalkStop(s: State, seen: seq<bool>, out: seq<Lit>, open: set<Var>, i: nat)
    requires Struct(s) && Marks(s, seen, out, open) && LastLim(s.lim) <= i < |s.trail|
    requires s.trail[i].v < |seen| && seen[s.trail[i].v] && OpenBelow(s.pos, open, i + 1)
    ensures LastOpen(s, open, s.trail[i], i)
  {
    var p := s.trail[i];
    CurrentLevel(s, i);
    MarkedOpen(s, seen, out, open, p.v);
    forall v | v in open - {p.v} ensures v < |s.pos| && s.pos[v] < i {
      OpenPosition(s, seen, out, open, v);
    }
  }

  lemma MarksFacts(s: State, seen: seq<bool>, out: seq<Lit>, open: set<Var>, v: Var)
    requires Marks(s, seen, out, open) && v in open
    ensures v < |seen| == |s.vd| == |s.assigns| && Assigned(s, v)
  {
  }

  // ---------------------------------------------------------------- searching for redundancy

  ghost predicate HasVarFrom(t: seq<Lit>, from: nat, v: Var) {
    exists k :: from <= k < |t| && t[k].v == v
  }

  /** The marks set since `seen0` are on variables listed in t from position `from` on. */
  ghost predicate MarkedBy(seen0: seq<bool>, seen: seq<bool>, t: seq<Lit>, from: nat) {
    && |seen| == |seen0|
    && (forall k :: from <= k < |t| ==> t[k].v < |seen| && !seen0[t[k].v])
    && (forall v :: 0 <= v < |seen| && seen0[v] ==> seen[v])
    && (forall v :: 0 <= v < |seen| && seen[v] ==> seen0[v] || HasVarFrom(t, from, v))
  }

  /** The new marks, and p itself, are implied variables, each covered or still to be examined. */
  ghost predicate Explored(s: State, seen0: seq<bool>, seen: seq<bool>, p: Lit, todo: set<Var>) {
    && |seen| == |seen0| == |s.assigns|
    && forall v :: 0 <= v < |seen| && (v == p.v || (seen[v] && !seen0[v])) ==>
         Assigned(s, v) && s.vd[v].reason != CREF_UNDEF && (v in todo || Covered(s, seen, v))
  }

  predicate ImpliedFalse(s: State, x: Lit) {
    IsFalse(s.assigns, x) && x.v < |s.vd| && s.vd[x.v].reason != CREF_UNDEF
  }

  function VarSet(stack: seq<Lit>): set<Var> {
    set k | 0 <= k < |stack| :: stack[k].v
  }

  function Unmarked(seen: seq<bool>): set<Var> {
    set v | 0 <= v < |seen| && !seen[v]
  }

  /** Marking more variables leaves covered ones covered. */
  lemma CoveredMono(s: State, seen: seq<bool>, seen': seq<bool>, v: Var)
    requires Covered(s, seen, v) && |seen| == |seen'|
    requires forall u :: 0 <= u < |seen| && seen[u] ==> seen'[u]
    ensures Covered(s, seen', v)
  {
  }

  lemma ExploreMark(s: State, seen0: seq<bool>, seen: seq<bool>, p: Lit, todo: set<Var>, q: Lit,
                    t: seq<Lit>, from: nat)
    requires Struct(s) && Explored(s, seen0, seen, p, todo) && MarkedBy(seen0, seen, t, from) && from <= |t|
    requires ImpliedFalse(s, q) && !seen[q.v]
    ensures Explored(s, seen0, seen[q.v := true], p, todo + {q.v})
    ensures MarkedBy(seen0, seen[q.v := true], t + [q], from)
    ensures Unmarked(seen[q.v := true]) < Unmarked(seen)
  {
    FalseAssigned(s, q);
    hide Struct;
    ExploredStep(s, seen0, seen, p, todo, q.v);
    MarkedByStep(seen0, seen, t, from, q);
    assert q.v in Unmarked(seen) && q.v !in Unmarked(seen[q.v := true]);
  }

  lemma ExploredStep(s: State, seen0: seq<bool>, seen: seq<bool>, p: Lit, todo: set<Var>, q: Var)
    requires Explored(s, seen0, seen, p, todo) && q < |seen|
    requires Assigned(s, q) && s.vd[q].reason != CREF_UNDEF
    ensures Explored(s, seen0, seen[q := true], p, todo + {q})
  {
    var seen' := seen[q := true];
    forall v | 0 <= v < |seen'| && (v == p.v || (seen'[v] && !seen0[v]))
      ensures Assigned(s, v) && v < |s.vd| && s.vd[v].reason != CREF_UNDEF && (v in todo + {q} || Covered(s, seen', v))
    {
      if v != q && v !in todo {
        CoveredMono(s, seen, seen', v);
      }
    }
  }

  lemma MarkedByStep(seen0: seq<bool>, seen: seq<bool>, t: seq<Lit>, from: nat, q: Lit)
    requires MarkedBy(seen0, seen, t, from) && from <= |t| && q.v < |seen| && !seen[q.v]
    ensures MarkedBy(seen0, seen[q.v := true], t + [q], from)
  {
    var seen' := seen[q.v := true];
    forall v | 0 <= v < |seen'| && seen'[v] ensures seen0[v] || HasVarFrom(t + [q], from, v) {
      if v == q.v {
        assert (t + [q])[|t|].v == v;
      } else if !seen0[v] {
        var k :| from <= k < |t| && t[k].v == v;
        assert (t + [q])[k].v == v;
      }
    }
  }

  /** Once all its antecedents are marked or at level 0, u is covered. */
  lemma ExploreDone(s: State, seen0: seq<bool>, seen: seq<bool>, p: Lit, todo: set<Var>, u: Var)
    requires Explored(s, seen0, seen, p, todo + {u}) && Covered(s, seen, u)
    ensures Explored(s, seen0, seen, p, todo)
  {
  }

  lemma ReasonLive(s: State, v: Var)
    requires Struct(s) && Assigned(s, v) && s.vd[v].reason != CREF_UNDEF
    ensures Live(s.ca, s.vd[v].reason)
    ensures forall k :: 1 <= k < |s.ca[s.vd[v].reason].lits| ==> IsFalse(s.assigns, s.ca[s.vd[v].reason].lits[k])
    ensures |s.vd| == |s.assigns|
  {
    var i := s.pos[v];
    assert ReasonAt(s.ca, s.assigns, s.pos, s.trail[i], s.vd[v].reason, i);
  }

  /** Literals 1..i of the clause are at level 0 or marked. */
  ghost predicate PrefixMarked(c: seq<Lit>, vd: seq<VarData>, seen: seq<bool>, i: nat) {
    forall k :: 1 <= k < i && k < |c| ==>
      c[k].v < |vd| && c[k].v < |seen| && (vd[c[k].v].level == 0 || seen[c[k].v])
  }

  lemma VarSetPush(stack: seq<Lit>, q: Lit)
    ensures VarSet(stack + [q]) == VarSet(stack) + {q.v}
  {
    var t := stack + [q];
    assert t[|stack|] == q;
    forall v | v in VarSet(stack) ensures v in VarSet(t) {
      var k :| 0 <= k < |stack| && stack[k].v == v;
      assert t[k].v == v;
    }
  }

  lemma VarSetPop(stack: seq<Lit>)
    requires stack != []
    ensures VarSet(stack) == VarSet(stack[..|stack| - 1]) + {stack[|stack| - 1].v}
  {
    VarSetPush(stack[..|stack| - 1], stack[|stack| - 1]);
    assert stack == stack[..|stack| - 1] + [stack[|stack| - 1]];
  }

  lemma CoveredBy(s: State, seen: seq<bool>, v: Var)
    requires Assigned(s, v) && s.vd[v].reason != CREF_UNDEF && Live(s.ca, s.vd[v].reason)
    requires PrefixMarked(s.ca[s.vd[v].reason].lits, s.vd, seen, |s.ca[s.vd[v].reason].lits|)
    ensures Covered(s, seen, v)
  {
  }

  /** While the antecedents of u are examined: literals 1..i of its reason c are done. */
  ghost predicate ScanInv(s: State, seen0: seq<bool>, seen: seq<bool>, p: Lit, stack: seq<Lit>, u: Lit,
                          t: seq<Lit>, top: nat, c: seq<Lit>, i: nat) {
    && top <= |t| && |seen| == |s.vd| == |s.assigns|
    && MarkedBy(seen0, seen, t, top)
    && Explored(s, seen0, seen, p, VarSet(stack) + {u.v})
    && (forall k :: 0 <= k < |stack| ==> ImpliedFalse(s, stack[k]))
    && PrefixMarked(c, s.vd, seen, i)
  }

  lemma ScanMark(s: State, seen0: seq<bool>, seen: seq<bool>, p: Lit, stack: seq<Lit>, u: Lit,
                 t: seq<Lit>, top: nat, c: seq<Lit>, i: nat)
    requires Struct(s) && ScanInv(s, seen0, seen, p, stack, u, t, top, c, i) && 1 <= i < |c|
    requires ImpliedFalse(s, c[i]) && c[i].v < |seen| && !seen[c[i].v]
    ensures ScanInv(s, seen0, seen[c[i].v := true], p, stack + [c[i]], u, t + [c[i]], top, c, i + 1)
    ensures Unmarked(seen[c[i].v := true]) < Unmarked(seen)
  {
    var q := c[i];
    hide Struct, Explored, MarkedBy, VarSet, PrefixMarked, Unmarked, ImpliedFalse;
    ExploreMark(s, seen0, seen, p, VarSet(stack) + {u.v}, q, t, top);
    VarSetPush(stack, q);
    assert VarSet(stack + [q]) + {u.v} == VarSet(stack) + {u.v} + {q.v};
    PrefixStep(c, s.vd, seen, i);
    assert forall k :: 0 <= k < |stack + [q]| ==> ImpliedFalse(s, (stack + [q])[k]);
  }

  lemma PrefixStep(c: seq<Lit>, vd: seq<VarData>, seen: seq<bool>, i: nat)
    requires PrefixMarked(c, vd, seen, i) && 1 <= i < |c| && c[i].v < |vd| && c[i].v < |seen|
    ensures PrefixMarked(c, vd, seen[c[i].v := true], i + 1)
  {
  }

  lemma ScanSkip(s: State, seen0: seq<bool>, seen: seq<bool>, p: Lit, stack: seq<Lit>, u: Lit,
                 t: seq<Lit>, top: nat, c: seq<Lit>, i: nat)
    requires ScanInv(s, seen0, seen, p, stack, u, t, top, c, i) && 1 <= i < |c|
    requires c[i].v < |seen| && (seen[c[i].v] || s.vd[c[i].v].level == 0)
    ensures ScanInv(s, seen0, seen, p, stack, u, t, top, c, i + 1)
  {
  }

  lemma ScanDone(s: State, seen0: seq<bool>, seen: seq<bool>, p: Lit, stack: seq<Lit>, u: Lit,
                 t: seq<Lit>, top: nat, c: seq<Lit>)
    requires Struct(s) && ImpliedFalse(s, u) && c == s.ca[s.vd[u.v].reason].lits
             && Live(s.ca, s.vd[u.v].reason)
    requires ScanInv(s, seen0, seen, p, stack, u, t, top, c, |c|)
    ensures Explored(s, seen0, seen, p, VarSet(stack))
  {
    FalseAssigned(s, u);
    CoveredBy(s, seen, u.v);
    ExploreDone(s, seen0, seen, p, VarSet(stack), u.v);
  }

  lemma ScanFacts(s: State, seen0: seq<bool>, seen: seq<bool>, p: Lit, stack: seq<Lit>, u: Lit,
                  t: seq<Lit>, top: nat, c: seq<Lit>, i: nat)
    requires ScanInv(s, seen0, seen, p, stack, u, t, top, c, i)
    ensures MarkedBy(seen0, seen, t, top) && |seen| == |s.vd| == |s.assigns|
    ensures forall k :: 0 <= k < |stack| ==> ImpliedFalse(s, stack[k])
  {
  }

  lemma ScanStart(s: State, seen0: seq<bool>, seen: seq<bool>, p: Lit, stack: seq<Lit>, u: Lit,
                  t: seq<Lit>, top: nat)
    requires Struct(s) && ImpliedFalse(s, u)
    requires top <= |t| && MarkedBy(seen0, seen, t, top) && Explored(s, seen0, seen, p, VarSet(stack) + {u.v})
    requires forall k :: 0 <= k < |stack| ==> ImpliedFalse(s, stack[k])
    ensures Live(s.ca, s.vd[u.v].reason) && |seen| == |s.vd| == |s.assigns|
    ensures var c := s.ca[s.vd[u.v].reason].lits;
              && ScanInv(s, seen0, seen, p, stack, u, t, top, c, 1)
              && forall k :: 1 <= k < |c| ==> IsFalse(s.assigns, c[k])
  {
    FalseAssigned(s, u);
    ReasonLive(s, u.v);
  }

  lemma ScanEnd(s: State, seen0: seq<bool>, seen: seq<bool>, p: Lit, stack: seq<Lit>, u: Lit,
                t: seq<Lit>, top: nat, c: seq<Lit>, i: nat)
    requires Struct(s) && ImpliedFalse(s, u) && Live(s.ca, s.vd[u.v].reason)
    requires c == s.ca[s.vd[u.v].reason].lits && i >= |c|
    requires ScanInv(s, seen0, seen, p, stack, u, t, top, c, i)
    ensures MarkedBy(seen0, seen, t, top) && Explored(s, seen0, seen, p, VarSet(stack))
    ensures forall k :: 0 <= k < |stack| ==> ImpliedFalse(s, stack[k])
  {
    ScanDone(s, seen0, seen, p, stack, u, t, top, c);
  }

  /** What a successful redundancy search leaves behind. */
  ghost predicate Redundant(s: State, seen0: seq<bool>, seen: seq<bool>, p: Lit) {
    Explored(s, seen0, seen, p, {})
  }

  /** While literals are examined one by one: each marked variable is kept, waiting, or covered. */
  ghost predicate MinInv(s: State, seen: seq<bool>, kept: seq<Lit>, rest: seq<Lit>, t: seq<Lit>) {
    && |seen| == |s.assigns| == |s.vd|
    && (forall v :: 0 <= v < |seen| && seen[v] ==>
          Assigned(s, v) && (HasVar(kept, v) || HasVar(rest, v) || Covered(s, seen, v)))
    && (forall v :: 0 <= v < |seen| && seen[v] ==> HasVar(t, v))
    && (forall k :: 0 <= k < |rest| ==> IsFalse(s.assigns, rest[k]))
    && (forall k :: 0 <= k < |t| ==> t[k].v < |seen|)
  }

  lemma MinKeep(s: State, seen: seq<bool>, kept: seq<Lit>, rest: seq<Lit>, t: seq<Lit>)
    requires MinInv(s, seen, kept, rest, t) && rest != []
    ensures MinInv(s, seen, kept + [rest[0]], rest[1..], t)
  {
    var kept', rest' := kept + [rest[0]], rest[1..];
    forall v | 0 <= v < |seen| && seen[v]
      ensures HasVar(kept', v) || HasVar(rest', v) || Covered(s, seen, v)
    {
      if HasVar(kept, v) {
        var k :| 0 <= k < |kept| && kept[k].v == v;
        assert kept'[k].v == v;
      } else if HasVar(rest, v) {
        var k :| 0 <= k < |rest| && rest[k].v == v;
        if k == 0 {
          assert kept'[|kept|].v == v;
        } else {
          assert rest'[k - 1].v == v;
        }
      }
    }
  }

  /** A literal found redundant is dropped; the marks set meanwhile stay. */
  lemma MinDrop(s: State, seen0: seq<bool>, seen: seq<bool>, kept: seq<Lit>, rest: seq<Lit>, t0: seq<Lit>, t: seq<Lit>)
    requires MinInv(s, seen0, kept, rest, t0) && rest != []
    requires Redundant(s, seen0, seen, rest[0]) && MarkedBy(seen0, seen, t, |t0|) && t0 <= t
    ensures MinInv(s, seen, kept, rest[1..], t)
  {
    var rest' := rest[1..];
    forall v | 0 <= v < |seen| && seen[v]
      ensures Assigned(s, v) && (HasVar(kept, v) || HasVar(rest', v) || Covered(s, seen, v))
    {
      if seen0[v] && v != rest[0].v {
        if Covered(s, seen0, v) {
          CoveredMono(s, seen0, seen, v);
        } else if HasVar(rest, v) {
          var k :| 0 <= k < |rest| && rest[k].v == v;
          assert rest'[k - 1].v == v;
        }
      }
    }
    forall v | 0 <= v < |seen| && seen[v] ensures HasVar(t, v) {
      if seen0[v] {
        var k :| 0 <= k < |t0| && t0[k].v == v;
        assert t[k].v == v;
      }
    }
    forall k | 0 <= k < |t| ensures t[k].v < |seen| {
      if k < |t0| {
        assert t[k] == t0[k];
      }
    }
  }

  lemma MinStart(s: State, seen: seq<bool>, u: Lit, out: seq<Lit>)
    requires Struct(s) && Marks(s, seen, out, {}) && u.v < |s.assigns|
    ensures MinInv(s, seen, [], out, [u] + out)
  {
    hide Struct, Covered, TrueLit, NoPair;
    forall v | 0 <= v < |seen| && seen[v] ensures Assigned(s, v) && HasVar(out, v) && HasVar([u] + out, v) {
      var k :| 0 <= k < |out| && out[k].v == v;
      FalseAssigned(s, out[k]);
      assert ([u] + out)[k + 1].v == v;
    }
  }

  lemma MinEnd(s: State, seen: seq<bool>, kept: seq<Lit>, t: seq<Lit>)
    requires MinInv(s, seen, kept, [], t)
    ensures MarksCovered(s, seen, kept)
  {
  }

  /** Where the search for a removable literal begins: only p itself is still to be explored. */
  lemma ExploreStart(s: State, seen: seq<bool>, p: Lit, t: seq<Lit>)
    requires Struct(s) && |seen| == |s.assigns| && ImpliedFalse(s, p)
    ensures Explored(s, seen, seen, p, VarSet([p])) && MarkedBy(seen, seen, t, |t|)
  {
    FalseAssigned(s, p);
    VarSetPush([], p);
    assert [] + [p] == [p];
  }

  lemma VarSetEmpty()
    ensures VarSet([]) == {}
  {
  }

  lemma MinAll(s: State, seen: seq<bool>, out: seq<Lit>, t: seq<Lit>)
    requires MinInv(s, seen, [], out, t)
    ensures MinInv(s, seen, out, [], t)
  {
  }

  /** The reason of p has, besides p, only marked and level-0 literals. */
  ghost predicate ReasonCovered(s: State, seen: seq<bool>, p: Lit) {
    && p.v < |s.vd| && 0 <= s.vd[p.v].reason < |s.ca|
    && var c := s.ca[s.vd[p.v].reason].lits;
       PrefixMarked(c, s.vd, seen, |c|)
  }

  /** The literals that one-step minimisation keeps, in order. */
  ghost function BasicKept(s: State, seen: seq<bool>, out: seq<Lit>): seq<Lit> {
    if out == [] then []
    else
      var p := out[|out| - 1];
      BasicKept(s, seen, out[..|out| - 1]) + if ReasonCovered(s, seen, p) then [] else [p]
  }

  lemma BasicNothing(s: State, seen: seq<bool>)
    ensures BasicKept(s, seen, []) == []
  {
  }

  lemma BasicStep(s: State, seen: seq<bool>, out: seq<Lit>, i: nat)
    requires i < |out|
    ensures BasicKept(s, seen, out[..i + 1]) ==
            BasicKept(s, seen, out[..i]) + if ReasonCovered(s, seen, out[i]) then [] else [out[i]]
  {
    assert out[..i + 1][..i] == out[..i];
  }

  lemma RedundantNow(s: State, seen: seq<bool>, p: Lit, t: seq<Lit>)
    requires Struct(s) && |seen| == |s.assigns| && ImpliedFalse(s, p) && Live(s.ca, s.vd[p.v].reason)
    requires PrefixMarked(s.ca[s.vd[p.v].reason].lits, s.vd, seen, |s.ca[s.vd[p.v].reason].lits|)
    ensures Redundant(s, seen, seen, p) && MarkedBy(seen, seen, t, |t|)
  {
    FalseAssigned(s, p);
    CoveredBy(s, seen, p.v);
  }

  lemma MinFacts(s: State, seen: seq<bool>, kept: seq<Lit>, rest: seq<Lit>, t: seq<Lit>)
    requires MinInv(s, seen, kept, rest, t) && rest != []
    ensures IsFalse(s.assigns, rest[0]) && |seen| == |s.assigns| == |s.vd|
  {
  }

  /** kept is drawn from the first i literals of out. */
  ghost predicate KeptOf(kept: seq<Lit>, out: seq<Lit>, i: nat) {
    && (forall k :: 0 <= k < |kept| ==> exists m :: 0 <= m < i && m < |out| && out[m] == kept[k])
    && (NoPair(out) ==> NoPair(kept))
  }

  lemma KeptNothing(out: seq<Lit>)
    ensures KeptOf([], out, 0)
  {
  }

  lemma MinLits(s: State, seen: seq<bool>, kept: seq<Lit>, rest: seq<Lit>, t: seq<Lit>)
    requires MinInv(s, seen, kept, rest, t)
    ensures |seen| == |s.assigns| == |s.vd|
    ensures forall k :: 0 <= k < |rest| ==> IsFalse(s.assigns, rest[k]) && rest[k].v < |s.vd|
  {
  }

  lemma KeptPush(kept: seq<Lit>, out: seq<Lit>, i: nat)
    requires KeptOf(kept, out, i) && i < |out|
    ensures KeptOf(kept, out, i + 1) && KeptOf(kept + [out[i]], out, i + 1)
  {
  }

  lemma KeptIn(kept: seq<Lit>, out: seq<Lit>, i: nat)
    requires KeptOf(kept, out, i)
    ensures forall x :: x in kept ==> x in out
    ensures NoPair(out) ==> NoPair(kept)
  {
  }

  // ---------------------------------------------------------------- the asserting clause

  /** All literals are false; the first alone is of the current level, the second has the highest other level. */
  ghost predicate Asserting(s: State, c: seq<Lit>, bt: nat) {
    && |c| > 0 && NoPair(c)
    && (forall k :: 0 <= k < |c| ==> IsFalse(s.assigns, c[k]) && c[k].v < |s.vd|)
    && s.vd[c[0].v].level == |s.lim|
    && (forall k :: 1 <= k < |c| ==> 0 < s.vd[c[k].v].level <= bt)
    && (if |c| == 1 then bt == 0 else s.vd[c[1].v].level == bt)
    && bt < |s.lim|
  }

  /** All but the highest-level requirement. */
  ghost predicate AlmostAsserting(s: State, c: seq<Lit>) {
    && |c| > 0 && NoPair(c)
    && (forall k :: 0 <= k < |c| ==> IsFalse(s.assigns, c[k]) && c[k].v < |s.vd|)
    && s.vd[c[0].v].level == |s.lim|
    && (forall k :: 1 <= k < |c| ==> 0 < s.vd[c[k].v].level < |s.lim|)
  }

  lemma DerivedShape(s: State, seen: seq<bool>, p: Lit, out: seq<Lit>, kept: seq<Lit>)
    requires Struct(s) && Marks(s, seen, out, {})
    requires Assigned(s, p.v) && TrueLit(s, p.v) == p && s.vd[p.v].level == |s.lim|
    requires (forall x :: x in kept ==> x in out) && NoPair(kept)
    ensures AlmostAsserting(s, [Neg(p)] + kept)
  {
    var c := [Neg(p)] + kept;
    assert IsTrue(s.assigns, s.trail[s.pos[p.v]]);
    hide Struct, TrailOk, AtLevel;
    forall k | 1 <= k < |c|
      ensures IsFalse(s.assigns, c[k]) && c[k].v < |s.vd| && 0 < s.vd[c[k].v].level < |s.lim|
    {
      assert kept[k - 1] in out;
    }
  }

  lemma MinimisedFromMarks(f: Formula, s: State, seen0: seq<bool>, seen: seq<bool>, u: Lit, out: seq<Lit>,
                           kept: seq<Lit>, t: seq<Lit>)
    requires Struct(s) && Means(f, s) && Entails(f, [u] + out) && Marks(s, seen0, out, {})
    requires MinInv(s, seen, kept, [], t)
    requires forall v :: 0 <= v < |seen0| && seen0[v] ==> v < |seen| && seen[v]
    requires forall x :: x in kept ==> x in out
    ensures Entails(f, [u] + kept)
  {
    forall k | 0 <= k < |kept| ensures IsFalse(s.assigns, kept[k]) {
      assert kept[k] in out;
    }
    MinEnd(s, seen, kept, t);
    hide Struct, Means, MarksCovered, Entails;
    MinimisedEntailed(f, s, seen, u, out, kept);
  }

  /** Bringing a literal of maximal level to position 1 completes the asserting clause. */
  lemma SwapAsserting(s: State, c: seq<Lit>, m: nat)
    requires AlmostAsserting(s, c) && 1 <= m < |c|
    requires forall k :: 1 <= k < |c| ==> s.vd[c[k].v].level <= s.vd[c[m].v].level
    ensures Asserting(s, Swap(c, m, 1), s.vd[c[m].v].level)
    ensures SameLits(c, Swap(c, m, 1))
  {
    SwapSame(c, m, 1);
    var d := Swap(c, m, 1);
    forall i, j | 0 <= i < j < |d| ensures d[i].v != d[j].v {
      var i' := if i == m then 1 else if i == 1 then m else i;
      var j' := if j == m then 1 else if j == 1 then m else j;
      assert d[i] == c[i'] && d[j] == c[j'];
      assert c[i'].v != c[j'].v;
    }
  }

  lemma MarksShape(s: State, seen: seq<bool>, out: seq<Lit>)
    requires Marks(s, seen, out, {})
    ensures NoPair(out) && |seen| == |s.assigns|
  {
  }

  lemma MinCleared(s: State, seen: seq<bool>, kept: seq<Lit>, t: seq<Lit>)
    requires MinInv(s, seen, kept, [], t)
    ensures |seen| == |s.assigns|
    ensures forall v :: 0 <= v < |seen| && seen[v] ==> HasVar(t, v)
    ensures forall k :: 0 <= k < |t| ==> t[k].v < |seen|
  {
  }

  lemma RedundantIntro(s: State, seen0: seq<bool>, seen: seq<bool>, p: Lit, stack: seq<Lit>)
    requires Explored(s, seen0, seen, p, VarSet(stack)) && stack == []
    ensures Redundant(s, seen0, seen, p)
  {
    VarSetEmpty();
  }
}
