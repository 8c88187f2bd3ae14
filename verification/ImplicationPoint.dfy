/** Conflict analysis stops at the first unique implication point, and derives exactly its clause. */
module ImplicationPoint {
  import opened Sat
  import opened SolverState
  import opened Propagation
  import opened Analysis
  import opened FinalAnalysis

  /** The variables above level 0 of literals j..k of a clause. */
  ghost function LevelVars(c: seq<Lit>, vd: seq<VarData>, j: nat, k: nat): set<Var> {
    set i | j <= i < k && i < |c| && c[i].v < |vd| && vd[c[i].v].level > 0 :: c[i].v
  }

  lemma LevelVarsStep(c: seq<Lit>, vd: seq<VarData>, j: nat, k: nat)
    requires j <= k < |c| && c[k].v < |vd|
    ensures LevelVars(c, vd, j, k + 1) == LevelVars(c, vd, j, k) + if vd[c[k].v].level > 0 then {c[k].v} else {}
  {
  }

  lemma MarkedListed(s: State, seen: seq<bool>, out: seq<Lit>, open: set<Var>, v: Var)
    requires Marks(s, seen, out, open) && v < |s.vd| && (seen[v] || s.vd[v].level == 0)
    ensures open + VarSet(out) == open + VarSet(out) + if s.vd[v].level > 0 then {v} else {}
  {
  }

  lemma LevelVarsNone(c: seq<Lit>, vd: seq<VarData>, j: nat)
    ensures LevelVars(c, vd, j, j) == {}
  {
  }

  lemma NeedsVars(s: State, v: Var)
    requires v < |s.vd| && 0 <= s.vd[v].reason < |s.ca|
    ensures var c := s.ca[s.vd[v].reason].lits; forall u: Var :: Needs(s, v, u) <==> u in LevelVars(c, s.vd, 1, |c|)
  {
    var c := s.ca[s.vd[v].reason].lits;
    assert Antecedents(c, s.vd, |c|) == LevelVars(c, s.vd, 1, |c|);
  }

  /** What a conflicting clause blames first. */
  ghost function Causes(s: State, confl: CRef): set<Var> {
    if 0 <= confl < |s.ca| then LevelVars(s.ca[confl].lits, s.vd, 0, |s.ca[confl].lits|) else {}
  }

  /** A chain from the conflict along reasons; all but its last variable are at trail position b or later. */
  ghost predicate CausePath(s: State, confl: CRef, b: nat, path: seq<Var>) {
    && Chain(s, path) && path[0] in Causes(s, confl)
    && forall k :: 0 <= k < |path| - 1 ==> path[k] < |s.pos| && s.pos[path[k]] >= b
  }

  /** v is left when the conflict has been resolved with all reasons from trail position b on. */
  ghost predicate Reached(s: State, confl: CRef, b: nat, v: Var) {
    exists path :: CausePath(s, confl, b, path) && path[|path| - 1] == v
  }

  ghost predicate Current(s: State, v: Var) {
    Assigned(s, v) && s.vd[v].level == |s.lim|
  }

  /** When v is resolved on, another variable of the current level is left. */
  ghost predicate NotAlone(s: State, confl: CRef, v: Var) {
    v < |s.pos| && exists u: Var :: Current(s, u) && s.pos[u] < s.pos[v] && Reached(s, confl, s.pos[v] + 1, u)
  }

  /**
   * The derived clause is that of the first unique implication point p: of the current level nothing but p is left when
   * all later literals have been resolved, at each later one something else was left, and the literals of lower levels
   * are exactly those met on the way.
   */
  ghost predicate FirstUip(s: State, confl: CRef, p: Lit, out: seq<Lit>) {
    && Current(s, p.v) && TrueLit(s, p.v) == p && Reached(s, confl, s.pos[p.v] + 1, p.v)
    && (forall v: Var :: Current(s, v) && s.pos[v] < s.pos[p.v] ==> !Reached(s, confl, s.pos[p.v] + 1, v))
    && (forall v: Var :: Current(s, v) && s.pos[v] > s.pos[p.v] && Reached(s, confl, s.pos[v] + 1, v) ==>
          NotAlone(s, confl, v))
    && (forall x :: x in out ==> IsFalse(s.assigns, x))
    && (forall v: Var :: v in VarSet(out) <==>
          Reached(s, confl, s.pos[p.v] + 1, v) && v < |s.vd| && s.vd[v].level < |s.lim|)
  }

  lemma ReachedCause(s: State, confl: CRef, b: nat, v: Var)
    requires v in Causes(s, confl)
    ensures Reached(s, confl, b, v)
  {
    assert CausePath(s, confl, b, [v]);
  }

  lemma ReachedStep(s: State, confl: CRef, b: nat, v: Var, u: Var)
    requires Reached(s, confl, b, v) && Needs(s, v, u) && v < |s.pos| && s.pos[v] >= b
    ensures Reached(s, confl, b, u)
  {
    var path :| CausePath(s, confl, b, path) && path[|path| - 1] == v;
    var longer := path + [u];
    forall k | 0 <= k < |longer| - 1
      ensures Needs(s, longer[k], longer[k + 1]) && longer[k] < |s.pos| && s.pos[longer[k]] >= b
    {
      if k < |path| - 1 {
        assert Needs(s, path[k], path[k + 1]);
      }
    }
    assert CausePath(s, confl, b, longer);
  }

  lemma ReachedLower(s: State, confl: CRef, b: nat, b': nat, v: Var)
    requires Reached(s, confl, b, v) && b' <= b
    ensures Reached(s, confl, b', v)
  {
    var path :| CausePath(s, confl, b, path) && path[|path| - 1] == v;
    assert CausePath(s, confl, b', path);
  }

  /** While the trail is walked down to position b: `left` is what is left, and `done` has been resolved. */
  ghost predicate Unravelling(s: State, confl: CRef, b: nat, left: set<Var>, done: set<Var>) {
    && Causes(s, confl) <= left + done
    && (forall v: Var :: v in left ==> Reached(s, confl, b, v))
    && (forall v: Var :: v in done ==> Current(s, v) && s.pos[v] >= b && NotAlone(s, confl, v))
    && forall v: Var, u: Var :: v in done && Needs(s, v, u) ==> u in left + done
  }

  lemma UnravelStart(s: State, confl: CRef, b: nat)
    ensures Unravelling(s, confl, b, Causes(s, confl), {})
  {
    forall v | v in Causes(s, confl) ensures Reached(s, confl, b, v) {
      ReachedCause(s, confl, b, v);
    }
  }

  lemma UnravelDown(s: State, confl: CRef, b: nat, b': nat, left: set<Var>, done: set<Var>)
    requires Unravelling(s, confl, b, left, done) && b' <= b
    ensures Unravelling(s, confl, b', left, done)
  {
    hide Reached, NotAlone, Current, Causes, Needs;
    forall v | v in left ensures Reached(s, confl, b', v) {
      ReachedLower(s, confl, b, b', v);
    }
  }

  /** Resolving on v, at position i, while u of the current level is left too. */
  lemma UnravelStep(s: State, confl: CRef, i: nat, left: set<Var>, done: set<Var>, v: Var, u: Var, left': set<Var>)
    requires Unravelling(s, confl, i + 1, left, done) && v in left && u in left
    requires Current(s, v) && s.pos[v] == i && Current(s, u) && s.pos[u] < i && 0 <= s.vd[v].reason < |s.ca|
    requires var c := s.ca[s.vd[v].reason].lits;
             left <= left' + {v} && LevelVars(c, s.vd, 1, |c|) <= left' <= left + LevelVars(c, s.vd, 1, |c|)
    ensures Unravelling(s, confl, i, left', done + {v})
  {
    assert v < |s.pos|;
    hide *;
    NeedsVars(s, v);
    UnravelNeeds(s, confl, i, left, done, v, u, left', LevelVars(s.ca[s.vd[v].reason].lits, s.vd, 1,
                                                                 |s.ca[s.vd[v].reason].lits|));
  }

  lemma UnravelNeeds(s: State, confl: CRef, i: nat, left: set<Var>, done: set<Var>, v: Var, u: Var, left': set<Var>,
                     needed: set<Var>)
    requires Unravelling(s, confl, i + 1, left, done) && v in left && u in left && v < |s.pos|
    requires Current(s, v) && s.pos[v] == i && Current(s, u) && s.pos[u] < i
    requires forall w: Var :: Needs(s, v, w) <==> w in needed
    requires left <= left' + {v} && needed <= left' <= left + needed
    ensures Unravelling(s, confl, i, left', done + {v})
  {
    hide *;
    UnravelFacts(s, confl, i + 1, left, done);
    WithOther(s, confl, v, u);
    ReachedOn(s, confl, i, left, v, left');
    StillMet(s, left, left', done, v);
    UnravelOn(s, confl, i, left', done + {v});
  }

  lemma UnravelFacts(s: State, confl: CRef, b: nat, left: set<Var>, done: set<Var>)
    requires Unravelling(s, confl, b, left, done)
    ensures Causes(s, confl) <= left + done && forall v: Var :: v in left ==> Reached(s, confl, b, v)
    ensures forall v: Var :: v in done ==> v < |s.pos| && Current(s, v) && s.pos[v] >= b && NotAlone(s, confl, v)
    ensures forall v: Var, u: Var :: v in done && Needs(s, v, u) ==> u in left + done
  {
    hide Reached, NotAlone, Needs, Causes;
  }

  lemma UnravelOn(s: State, confl: CRef, b: nat, left: set<Var>, done: set<Var>)
    requires Causes(s, confl) <= left + done && forall v: Var :: v in left ==> Reached(s, confl, b, v)
    requires forall v: Var :: v in done ==> v < |s.pos| && Current(s, v) && s.pos[v] >= b && NotAlone(s, confl, v)
    requires forall v: Var, u: Var :: v in done && Needs(s, v, u) ==> u in left + done
    ensures Unravelling(s, confl, b, left, done)
  {
    hide Reached, NotAlone, Needs, Causes;
  }

  lemma WithOther(s: State, confl: CRef, v: Var, u: Var)
    requires v < |s.pos| && Current(s, u) && s.pos[u] < s.pos[v] && Reached(s, confl, s.pos[v] + 1, u)
    ensures NotAlone(s, confl, v)
  {
  }

  lemma ReachedOn(s: State, confl: CRef, i: nat, left: set<Var>, v: Var, left': set<Var>)
    requires v in left && v < |s.pos| && s.pos[v] == i
    requires forall w: Var :: w in left ==> Reached(s, confl, i + 1, w)
    requires forall w: Var :: w in left' ==> w in left || Needs(s, v, w)
    ensures forall w: Var :: w in left' ==> Reached(s, confl, i, w)
  {
    hide Reached, Needs;
    forall w: Var | w in left' ensures Reached(s, confl, i, w) {
      if w in left {
        ReachedLower(s, confl, i + 1, i, w);
      } else {
        ReachedLower(s, confl, i + 1, i, v);
        ReachedStep(s, confl, i, v, w);
      }
    }
  }

  lemma StillMet(s: State, was: set<Var>, now: set<Var>, done: set<Var>, v: Var)
    requires forall w: Var, x: Var :: w in done && Needs(s, w, x) ==> x in was + done
    requires was <= now + {v} && forall x: Var :: Needs(s, v, x) ==> x in now
    ensures forall w: Var, x: Var :: w in done + {v} && Needs(s, w, x) ==> x in now + (done + {v})
  {
    hide Needs;
    forall w: Var, x: Var | w in done + {v} && Needs(s, w, x) ensures x in now + (done + {v}) {
      assert w in done ==> x in was + done;
    }
  }

  /** Everything on a chain that stays above position i has been met. */
  lemma {:induction false} PathMet(s: State, confl: CRef, i: nat, left: set<Var>, done: set<Var>, path: seq<Var>)
    requires Unravelling(s, confl, i + 1, left, done) && CausePath(s, confl, i + 1, path)
    requires forall v: Var :: v in left ==> v < |s.pos| && s.pos[v] <= i
    ensures path[|path| - 1] in left + done
    decreases |path|
  {
    if |path| > 1 {
      var shorter, v, u := path[..|path| - 1], path[|path| - 2], path[|path| - 1];
      forall k | 0 <= k < |shorter| - 1 ensures Needs(s, shorter[k], shorter[k + 1]) {
        assert Needs(s, path[k], path[k + 1]);
      }
      assert Needs(s, v, u);
      PathMet(s, confl, i, left, done, shorter);
    }
  }

  lemma LowerLit(s: State, seen: seq<bool>, out: seq<Lit>, k: nat)
    requires Struct(s) && s.lim != [] && Marks(s, seen, out, {}) && k < |out|
    ensures IsFalse(s.assigns, out[k]) && Assigned(s, out[k].v) && out[k].v < |s.pos| && out[k].v < |s.vd|
    ensures s.vd[out[k].v].level < |s.lim| && s.pos[out[k].v] < LastLim(s.lim)
  {
    hide NoPair, HasVar;
    var v := out[k].v;
    FalseAssigned(s, out[k]);
    assert AtLevel(s.lim, s.vd[v].level, s.pos[v]);
  }

  lemma OutLower(s: State, seen: seq<bool>, out: seq<Lit>)
    requires Struct(s) && s.lim != [] && Marks(s, seen, out, {})
    ensures forall v: Var :: v in VarSet(out) ==>
              v < |s.pos| && v < |s.vd| && s.vd[v].level < |s.lim| && s.pos[v] < LastLim(s.lim)
    ensures forall x :: x in out ==> IsFalse(s.assigns, x)
  {
    hide Struct, Marks, Assigned, LastLim;
    forall k | 0 <= k < |out|
      ensures IsFalse(s.assigns, out[k]) && out[k].v < |s.pos| && out[k].v < |s.vd|
      ensures s.vd[out[k].v].level < |s.lim| && s.pos[out[k].v] < LastLim(s.lim)
    {
      LowerLit(s, seen, out, k);
    }
  }

  /** With p alone left of the current level, p is the first unique implication point. */
  lemma UnravelEnd(s: State, seen: seq<bool>, confl: CRef, i: nat, out: seq<Lit>, p: Lit, done: set<Var>)
    requires Struct(s) && s.lim != [] && Marks(s, seen, out, {})
    requires Unravelling(s, confl, i + 1, {p.v} + VarSet(out), done)
    requires Current(s, p.v) && TrueLit(s, p.v) == p && s.pos[p.v] == i && LastLim(s.lim) <= i
    ensures FirstUip(s, confl, p, out)
  {
    assert p.v < |s.pos|;
    hide *;
    OutLower(s, seen, out);
    LeftBelow(s, p.v, VarSet(out), i);
    var left := {p.v} + VarSet(out);
    LeftReached(s, confl, i, left, done);
    LeftExactly(s, confl, i, p.v, VarSet(out), left, done);
    LaterNotAlone(s, confl, i, left, done);
    FoundUip(s, confl, i, p, out);
  }

  lemma LeftBelow(s: State, p: Var, lower: set<Var>, i: nat)
    requires p < |s.pos| && s.pos[p] == i && forall v: Var :: v in lower ==> v < |s.pos| && s.pos[v] < i
    ensures forall v: Var :: v in {p} + lower ==> v < |s.pos| && s.pos[v] <= i
  {
  }

  lemma FoundUip(s: State, confl: CRef, i: nat, p: Lit, out: seq<Lit>)
    requires Current(s, p.v) && TrueLit(s, p.v) == p && s.pos[p.v] == i && Reached(s, confl, i + 1, p.v)
    requires forall v: Var :: Current(s, v) && s.pos[v] < i ==> !Reached(s, confl, i + 1, v)
    requires forall v: Var :: Current(s, v) && s.pos[v] > i && Reached(s, confl, s.pos[v] + 1, v) ==>
               NotAlone(s, confl, v)
    requires forall x :: x in out ==> IsFalse(s.assigns, x)
    requires forall v: Var :: v in VarSet(out) <==>
               Reached(s, confl, i + 1, v) && v < |s.vd| && s.vd[v].level < |s.lim|
    ensures FirstUip(s, confl, p, out)
  {
    hide Reached, NotAlone, VarSet;
  }

  lemma LeftReached(s: State, confl: CRef, i: nat, left: set<Var>, done: set<Var>)
    requires Unravelling(s, confl, i + 1, left, done) && forall v: Var :: v in left ==> v < |s.pos| && s.pos[v] <= i
    ensures forall v: Var :: v in left ==> Reached(s, confl, i + 1, v)
    ensures forall v: Var :: Reached(s, confl, i + 1, v) ==> v in left + done
    ensures forall v: Var :: v in done ==> Current(s, v) && s.pos[v] > i && NotAlone(s, confl, v)
  {
    hide Reached, NotAlone, Needs, Causes;
    forall v: Var | Reached(s, confl, i + 1, v) ensures v in left + done {
      ReachedMet(s, confl, i, left, done, v);
    }
  }

  lemma LeftExactly(s: State, confl: CRef, i: nat, p: Var, lower: set<Var>, left: set<Var>, done: set<Var>)
    requires Current(s, p) && s.pos[p] == i && left == {p} + lower
    requires forall v: Var :: v in left ==> Reached(s, confl, i + 1, v)
    requires forall v: Var :: Reached(s, confl, i + 1, v) ==> v in left + done
    requires forall v: Var :: v in lower ==> v < |s.vd| && s.vd[v].level < |s.lim|
    requires forall v: Var :: v in done ==> Current(s, v) && s.pos[v] > i
    ensures Reached(s, confl, i + 1, p)
    ensures forall v: Var :: v in lower <==> Reached(s, confl, i + 1, v) && v < |s.vd| && s.vd[v].level < |s.lim|
    ensures forall v: Var :: Current(s, v) && s.pos[v] < i ==> !Reached(s, confl, i + 1, v)
  {
    hide Reached;
    forall v: Var
      ensures v in lower <==> Reached(s, confl, i + 1, v) && v < |s.vd| && s.vd[v].level < |s.lim|
      ensures Current(s, v) && s.pos[v] < i ==> !Reached(s, confl, i + 1, v)
    {
      assert v in left + done ==> v == p || v in lower || v in done;
    }
  }

  lemma LaterNotAlone(s: State, confl: CRef, i: nat, left: set<Var>, done: set<Var>)
    requires forall v: Var :: Reached(s, confl, i + 1, v) ==> v in left + done
    requires forall v: Var :: v in left ==> v < |s.pos| && s.pos[v] <= i
    requires forall v: Var :: v in done ==> NotAlone(s, confl, v)
    ensures forall v: Var :: Current(s, v) && s.pos[v] > i && Reached(s, confl, s.pos[v] + 1, v) ==>
              NotAlone(s, confl, v)
  {
    hide Reached, NotAlone;
    forall v: Var | Current(s, v) && s.pos[v] > i && Reached(s, confl, s.pos[v] + 1, v) ensures NotAlone(s, confl, v) {
      ReachedLower(s, confl, s.pos[v] + 1, i + 1, v);
      assert v in left + done && v !in left;
    }
  }

  lemma ReachedMet(s: State, confl: CRef, i: nat, left: set<Var>, done: set<Var>, v: Var)
    requires Unravelling(s, confl, i + 1, left, done) && Reached(s, confl, i + 1, v)
    requires forall v: Var :: v in left ==> v < |s.pos| && s.pos[v] <= i
    ensures v in left + done
  {
    var path :| CausePath(s, confl, i + 1, path) && path[|path| - 1] == v;
    PathMet(s, confl, i, left, done, path);
  }
}
