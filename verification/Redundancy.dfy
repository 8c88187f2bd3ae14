/** Exactly which literals the minimisation of a learnt clause removes. */
module Redundancy {
  import opened Sat
  import opened SolverState
  import opened Propagation
  import opened Analysis
  import opened FinalAnalysis
  import opened ImplicationPoint

  ghost function MarkSet(seen: seq<bool>): set<Var> {
    set v | 0 <= v < |seen| && seen[v]
  }

  /** The levels of the literals of out, as bits of the 32-bit abstraction. */
  ghost function AbsLevels(s: State, out: seq<Lit>): set<nat> {
    set k | 0 <= k < |out| && out[k].v < |s.vd| :: s.vd[out[k].v].level % 32
  }

  lemma AbsLevelsPush(s: State, out: seq<Lit>, x: Lit)
    requires x.v < |s.vd|
    ensures AbsLevels(s, out + [x]) == AbsLevels(s, out) + {s.vd[x.v].level % 32}
  {
    var t := out + [x];
    assert t[|out|] == x;
    forall l | l in AbsLevels(s, out) ensures l in AbsLevels(s, t) {
      var k :| 0 <= k < |out| && out[k].v < |s.vd| && s.vd[out[k].v].level % 32 == l;
      assert t[k] == out[k];
    }
    forall l | l in AbsLevels(s, t) ensures l in AbsLevels(s, out) + {s.vd[x.v].level % 32} {
      var k :| 0 <= k < |t| && t[k].v < |s.vd| && s.vd[t[k].v].level % 32 == l;
      assert k < |out| ==> out[k] == t[k];
    }
  }

  /** A chain of antecedents that, after its start, avoids the marked variables. */
  ghost predicate FreeChain(s: State, marked: set<Var>, path: seq<Var>) {
    Chain(s, path) && forall k :: 1 <= k < |path| ==> path[k] !in marked
  }

  ghost predicate Via(s: State, marked: set<Var>, v: Var, u: Var) {
    exists path :: FreeChain(s, marked, path) && path[0] == v && path[|path| - 1] == u
  }

  /** An implied variable whose level the abstraction does not rule out. */
  ghost predicate Passable(s: State, abs: set<nat>, v: Var) {
    v < |s.vd| && s.vd[v].reason != CREF_UNDEF && s.vd[v].level % 32 in abs
  }

  /** v is implied, and so is, in passable steps, everything unmarked that it depends on. */
  ghost predicate Removable(s: State, marked: set<Var>, abs: set<nat>, v: Var) {
    && v < |s.vd| && s.vd[v].reason != CREF_UNDEF
    && forall u, w :: Via(s, marked, v, u) && Needs(s, u, w) && w !in marked ==> Passable(s, abs, w)
  }

  lemma ViaSelf(s: State, marked: set<Var>, v: Var)
    ensures Via(s, marked, v, v)
  {
    assert FreeChain(s, marked, [v]);
  }

  lemma ViaStep(s: State, marked: set<Var>, v: Var, u: Var, w: Var)
    requires Via(s, marked, v, u) && Needs(s, u, w) && w !in marked
    ensures Via(s, marked, v, w)
  {
    var path :| FreeChain(s, marked, path) && path[0] == v && path[|path| - 1] == u;
    var longer := path + [w];
    forall k | 0 <= k < |longer| - 1 ensures Needs(s, longer[k], longer[k + 1]) {
      if k < |path| - 1 {
        assert Needs(s, path[k], path[k + 1]);
      }
    }
    assert FreeChain(s, marked, longer);
  }

  /** Whatever is closed under unmarked antecedents holds all that is reached. */
  lemma {:induction false} ViaWithin(s: State, marked: set<Var>, within: set<Var>, path: seq<Var>)
    requires FreeChain(s, marked, path) && path[0] in within
    requires forall u: Var, w: Var :: u in within && Needs(s, u, w) && w !in marked ==> w in within
    ensures path[|path| - 1] in within
    decreases |path|
  {
    if |path| > 1 {
      var shorter := path[..|path| - 1];
      forall k | 0 <= k < |shorter| - 1 ensures Needs(s, shorter[k], shorter[k + 1]) {
        assert Needs(s, path[k], path[k + 1]);
      }
      ViaWithin(s, marked, within, shorter);
      assert Needs(s, path[|path| - 2], path[|path| - 1]);
    }
  }

  /** While the search from p is under way: the new marks are passable and reached from p. */
  ghost predicate Exploring(s: State, marked: set<Var>, seen: seq<bool>, abs: set<nat>, p: Var) {
    forall v: Var :: v in MarkSet(seen) && v !in marked ==> Passable(s, abs, v) && Via(s, marked, p, v)
  }

  lemma SearchStart(s: State, seen: seq<bool>, abs: set<nat>, p: Var)
    ensures Exploring(s, MarkSet(seen), seen, abs, p)
  {
  }

  lemma SearchMark(s: State, marked: set<Var>, seen: seq<bool>, abs: set<nat>, p: Var, u: Var, w: Var)
    requires Exploring(s, marked, seen, abs, p) && Via(s, marked, p, u) && Needs(s, u, w) && w < |seen|
    requires w !in marked && Passable(s, abs, w)
    ensures Exploring(s, marked, seen[w := true], abs, p) && Via(s, marked, p, w)
  {
    ViaStep(s, marked, p, u, w);
    hide Via, Passable, Needs;
    forall v: Var | v in MarkSet(seen[w := true]) && v !in marked ensures Passable(s, abs, v) && Via(s, marked, p, v) {
      assert v != w ==> v in MarkSet(seen);
    }
  }

  /** An unmarked antecedent that is not passable settles that p stays. */
  lemma SearchFails(s: State, marked: set<Var>, abs: set<nat>, p: Var, u: Var, w: Var)
    requires Via(s, marked, p, u) && Needs(s, u, w) && w !in marked && !Passable(s, abs, w)
    ensures !Removable(s, marked, abs, p)
  {
  }

  /** When nothing is left to explore, p and all variables marked on the way are removable. */
  lemma SearchDone(s: State, seen0: seq<bool>, seen: seq<bool>, abs: set<nat>, p: Lit, v: Var)
    requires Redundant(s, seen0, seen, p) && Exploring(s, MarkSet(seen0), seen, abs, p.v) && p.v < |seen0|
    requires v == p.v || (v in MarkSet(seen) && v !in MarkSet(seen0))
    ensures Removable(s, MarkSet(seen0), abs, v)
  {
    var marked := MarkSet(seen0);
    var within := MarkSet(seen) - marked + {p.v};
    forall u: Var, w: Var | u in within && Needs(s, u, w) && w !in marked ensures w in within && w in MarkSet(seen) {
      assert Covered(s, seen, u);
      CoveredNeeds(s, seen, u, w);
    }
    hide Needs, Covered, Passable;
    forall u: Var, w: Var | Via(s, marked, v, u) && Needs(s, u, w) && w !in marked ensures Passable(s, abs, w) {
      var path :| FreeChain(s, marked, path) && path[0] == v && path[|path| - 1] == u;
      ViaWithin(s, marked, within, path);
    }
  }

  lemma AllRemovable(s: State, seen0: seq<bool>, seen: seq<bool>, abs: set<nat>, p: Lit)
    requires Redundant(s, seen0, seen, p) && Exploring(s, MarkSet(seen0), seen, abs, p.v) && p.v < |seen0|
    ensures Removable(s, MarkSet(seen0), abs, p.v)
    ensures forall v: Var :: v in MarkSet(seen) && v !in MarkSet(seen0) ==>
              Passable(s, abs, v) && Removable(s, MarkSet(seen0), abs, v)
  {
    hide Redundant, MarkSet, Removable, Passable, Via;
    SearchDone(s, seen0, seen, abs, p, p.v);
    forall v: Var | v in MarkSet(seen) && v !in MarkSet(seen0) ensures Removable(s, MarkSet(seen0), abs, v) {
      SearchDone(s, seen0, seen, abs, p, v);
    }
  }

  lemma CoveredNeeds(s: State, seen: seq<bool>, u: Var, w: Var)
    requires Covered(s, seen, u) && Needs(s, u, w)
    ensures w in MarkSet(seen)
  {
  }

  /** Marks kept from earlier searches are on removable variables. */
  ghost predicate Retained(s: State, marked: set<Var>, seen: seq<bool>, abs: set<nat>) {
    && marked <= MarkSet(seen)
    && forall v: Var :: v in MarkSet(seen) && v !in marked ==> Passable(s, abs, v) && Removable(s, marked, abs, v)
  }

  lemma RetainedStart(s: State, seen: seq<bool>, abs: set<nat>)
    ensures Retained(s, MarkSet(seen), seen, abs)
  {
  }

  lemma NeedsLit(s: State, v: Var, c: seq<Lit>, i: nat)
    requires v < |s.vd| && 0 <= s.vd[v].reason < |s.ca| && c == s.ca[s.vd[v].reason].lits
    requires 1 <= i < |c| && c[i].v < |s.vd| && s.vd[c[i].v].level > 0
    ensures Needs(s, v, c[i].v)
  {
  }

  lemma UnmarkedBefore(seen0: seq<bool>, seen: seq<bool>, t: seq<Lit>, from: nat, v: Var)
    requires MarkedBy(seen0, seen, t, from) && v < |seen| && !seen[v]
    ensures v !in MarkSet(seen0)
  {
  }

  /** Every literal of the stack has been reached from p. */
  ghost predicate StackVia(s: State, marked: set<Var>, p: Var, stack: seq<Lit>) {
    forall k :: 0 <= k < |stack| ==> Via(s, marked, p, stack[k].v)
  }

  /** Literals to be explored: implied, and reached from p. */
  ghost predicate Waiting(s: State, marked: set<Var>, p: Var, stack: seq<Lit>) {
    StackVia(s, marked, p, stack) && forall k :: 0 <= k < |stack| ==> ImpliedFalse(s, stack[k])
  }

  lemma WaitingStart(s: State, marked: set<Var>, p: Lit)
    requires ImpliedFalse(s, p)
    ensures Waiting(s, marked, p.v, [p])
  {
    ViaSelf(s, marked, p.v);
  }

  lemma StackPush(s: State, marked: set<Var>, p: Var, stack: seq<Lit>, q: Lit)
    requires StackVia(s, marked, p, stack) && Via(s, marked, p, q.v)
    ensures StackVia(s, marked, p, stack + [q])
  {
  }

  lemma StackPop(s: State, marked: set<Var>, p: Var, stack: seq<Lit>)
    requires StackVia(s, marked, p, stack) && stack != []
    ensures StackVia(s, marked, p, stack[..|stack| - 1]) && Via(s, marked, p, stack[|stack| - 1].v)
  {
  }

  /** Retained marks change no verdict. */
  lemma SameVerdict(s: State, marked: set<Var>, seen: seq<bool>, abs: set<nat>, v: Var)
    requires Retained(s, marked, seen, abs)
    ensures Removable(s, MarkSet(seen), abs, v) <==> Removable(s, marked, abs, v)
  {
    if Removable(s, marked, abs, v) {
      StillRemovable(s, marked, seen, abs, v);
    }
    if Removable(s, MarkSet(seen), abs, v) {
      AlreadyRemovable(s, marked, seen, abs, v);
    }
  }

  lemma StillRemovable(s: State, marked: set<Var>, seen: seq<bool>, abs: set<nat>, v: Var)
    requires marked <= MarkSet(seen) && Removable(s, marked, abs, v)
    ensures Removable(s, MarkSet(seen), abs, v)
  {
    forall u: Var, w: Var | Via(s, MarkSet(seen), v, u) && Needs(s, u, w) && w !in MarkSet(seen)
      ensures Passable(s, abs, w)
    {
      var path :| FreeChain(s, MarkSet(seen), path) && path[0] == v && path[|path| - 1] == u;
      assert FreeChain(s, marked, path);
      assert Via(s, marked, v, u);
    }
  }

  lemma AlreadyRemovable(s: State, marked: set<Var>, seen: seq<bool>, abs: set<nat>, v: Var)
    requires Retained(s, marked, seen, abs) && Removable(s, MarkSet(seen), abs, v)
    ensures Removable(s, marked, abs, v)
  {
    forall u: Var, w: Var | Via(s, marked, v, u) && Needs(s, u, w) && w !in marked ensures Passable(s, abs, w) {
      var path :| FreeChain(s, marked, path) && path[0] == v && path[|path| - 1] == u;
      ThroughRetained(s, marked, seen, abs, v, path);
      if w !in MarkSet(seen) && !Via(s, MarkSet(seen), v, u) {
        var x: Var :| x in MarkSet(seen) && x !in marked && Via(s, marked, x, u);
        assert Removable(s, marked, abs, x);
      }
    }
  }

  /** A chain that avoids the first marks avoids the retained ones too, or its end is reached from one of those. */
  lemma {:induction false} ThroughRetained(s: State, marked: set<Var>, seen: seq<bool>, abs: set<nat>, v: Var,
                                           path: seq<Var>)
    requires FreeChain(s, marked, path) && path[0] == v
    ensures var u := path[|path| - 1];
            || Via(s, MarkSet(seen), v, u)
            || exists x: Var :: x in MarkSet(seen) && x !in marked && Via(s, marked, x, u)
    decreases |path|
  {
    if |path| == 1 {
      ViaSelf(s, MarkSet(seen), v);
    } else {
      var shorter, t, u := path[..|path| - 1], path[|path| - 2], path[|path| - 1];
      forall k | 0 <= k < |shorter| - 1 ensures Needs(s, shorter[k], shorter[k + 1]) {
        assert Needs(s, path[k], path[k + 1]);
      }
      assert Needs(s, t, u) && u !in marked;
      ThroughRetained(s, marked, seen, abs, v, shorter);
      hide Needs, Via, Chain;
      if u in MarkSet(seen) {
        ViaSelf(s, marked, u);
      } else if Via(s, MarkSet(seen), v, t) {
        ViaStep(s, MarkSet(seen), v, t, u);
      } else {
        var x: Var :| x in MarkSet(seen) && x !in marked && Via(s, marked, x, t);
        ViaStep(s, marked, x, t, u);
      }
    }
  }

  /** The marks set by a successful search are retained. */
  lemma RetainedMore(s: State, marked: set<Var>, seen: seq<bool>, seen': seq<bool>, abs: set<nat>)
    requires Retained(s, marked, seen, abs) && MarkSet(seen) <= MarkSet(seen')
    requires forall v: Var :: v in MarkSet(seen') && v !in MarkSet(seen) ==>
               Passable(s, abs, v) && Removable(s, MarkSet(seen), abs, v)
    ensures Retained(s, marked, seen', abs)
  {
    hide Removable, Passable, MarkSet;
    forall v: Var | v in MarkSet(seen') && v !in marked ensures Passable(s, abs, v) && Removable(s, marked, abs, v) {
      SameVerdict(s, marked, seen, abs, v);
    }
  }

  lemma RetainedMarks(s: State, seen0: seq<bool>, seen: seq<bool>, abs: set<nat>)
    requires Retained(s, MarkSet(seen0), seen, abs)
    ensures forall v :: 0 <= v < |seen0| && seen0[v] ==> v < |seen| && seen[v]
  {
    forall v | 0 <= v < |seen0| && seen0[v] ensures v < |seen| && seen[v] {
      assert v in MarkSet(seen0) && v in MarkSet(seen);
    }
  }

  lemma MarksGrow(seen0: seq<bool>, seen: seq<bool>, t: seq<Lit>, from: nat)
    requires MarkedBy(seen0, seen, t, from)
    ensures MarkSet(seen0) <= MarkSet(seen)
  {
  }

  /** The reason of v needs only marked variables. */
  ghost predicate DirectlyCovered(s: State, marked: set<Var>, v: Var) {
    v < |s.vd| && 0 <= s.vd[v].reason < |s.ca| && forall u: Var :: Needs(s, v, u) ==> u in marked
  }

  lemma CoveredDirectly(s: State, seen: seq<bool>, x: Lit)
    requires Struct(s) && |seen| == |s.assigns| && IsFalse(s.assigns, x)
    ensures ReasonCovered(s, seen, x) <==> DirectlyCovered(s, MarkSet(seen), x.v)
  {
    FalseAssigned(s, x);
    if s.vd[x.v].reason != CREF_UNDEF {
      ReasonLive(s, x.v);
      var c := s.ca[s.vd[x.v].reason].lits;
      if DirectlyCovered(s, MarkSet(seen), x.v) {
        forall k | 1 <= k < |c|
          ensures c[k].v < |s.vd| && c[k].v < |seen| && (s.vd[c[k].v].level == 0 || seen[c[k].v])
        {
          if s.vd[c[k].v].level > 0 {
            NeedsLit(s, x.v, c, k);
          }
        }
      }
    }
  }

  lemma {:induction false} BasicMembers(s: State, seen: seq<bool>, out: seq<Lit>)
    ensures forall x :: x in BasicKept(s, seen, out) <==> x in out && !ReasonCovered(s, seen, x)
  {
    if out != [] {
      var n := |out| - 1;
      BasicMembers(s, seen, out[..n]);
      assert out == out[..n] + [out[n]];
    }
  }

  /** In mode 1 exactly the literals whose own reason is covered go. */
  lemma BasicExact(s: State, seen: seq<bool>, out: seq<Lit>)
    requires Struct(s) && |seen| == |s.assigns| && forall k :: 0 <= k < |out| ==> IsFalse(s.assigns, out[k])
    ensures forall x :: x in BasicKept(s, seen, out) <==> x in out && !DirectlyCovered(s, MarkSet(seen), x.v)
  {
    BasicMembers(s, seen, out);
    hide Struct, ReasonCovered, DirectlyCovered, MarkSet;
    forall x | x in out ensures ReasonCovered(s, seen, x) <==> DirectlyCovered(s, MarkSet(seen), x.v) {
      CoveredDirectly(s, seen, x);
    }
  }

  /** Minimisation removes x from the literals out: in mode 2 by a search, in mode 1 by its own reason alone. */
  ghost predicate Dropped(s: State, mode: int, marked: set<Var>, out: seq<Lit>, x: Lit) {
    if mode == 2 then Removable(s, marked, AbsLevels(s, out), x.v) else mode == 1 && DirectlyCovered(s, marked, x.v)
  }

  lemma MarksExact(s: State, seen: seq<bool>, out: seq<Lit>)
    requires Marks(s, seen, out, {})
    ensures MarkSet(seen) == VarSet(out)
  {
  }

  /**
   * What conflict analysis learns: the complement of the first unique implication point, then those literals of the
   * clause derived there that minimisation keeps, in some order.
   */
  ghost predicate Analysed(s: State, mode: int, confl: CRef, c: seq<Lit>) {
    c != [] && exists out :: FirstUip(s, confl, Neg(c[0]), out) && LearntFrom(s, mode, out, c)
  }

  ghost predicate LearntFrom(s: State, mode: int, out: seq<Lit>, c: seq<Lit>) {
    c != [] && forall x :: x in c[1..] <==> x in out && !Dropped(s, mode, VarSet(out), out, x)
  }

  /** Reordering all but the first literal makes no difference. */
  lemma AnalysedClause(s: State, mode: int, confl: CRef, p: Lit, out: seq<Lit>, kept: seq<Lit>, c: seq<Lit>)
    requires FirstUip(s, confl, p, out) && NoPair([Neg(p)] + kept) && NoPair(c) && SameLits([Neg(p)] + kept, c)
    requires c != [] && c[0] == Neg(p)
    requires forall x :: x in kept <==> x in out && !Dropped(s, mode, VarSet(out), out, x)
    ensures Analysed(s, mode, confl, c)
  {
    hide FirstUip, Dropped, VarSet;
    var d := [Neg(p)] + kept;
    assert Neg(Neg(p)) == p && d[1..] == kept;
    forall x ensures x in c[1..] <==> x in kept {
      TailMembers(c, x);
      TailMembers(d, x);
    }
  }

  lemma TailMembers(c: seq<Lit>, x: Lit)
    requires c != [] && NoPair(c)
    ensures x in c[1..] <==> x in c && x != c[0]
  {
    if x in c && x != c[0] {
      var k :| 0 <= k < |c| && c[k] == x;
      assert c[1..][k - 1] == x;
    }
    if x in c[1..] {
      var k :| 0 <= k < |c[1..]| && c[1..][k] == x;
      assert c[k + 1] == x;
    }
  }
}
