/** How the meaning of the clause database moves with the solver's steps. */
module Meaning {
  import opened Sat
  import opened SolverState
  import opened Propagation

  /** The level-0 facts of a state. */
  function Facts(s: State): seq<Lit> {
    var r := Root(s.trail, s.lim);
    if r <= |s.trail| then s.trail[..r] else s.trail
  }

  /** The database of s says the same as the formula f. */
  ghost predicate Means(f: Formula, s: State) {
    SemOk(f, s.ca, Facts(s))
  }

  /** Only the clauses and the level-0 facts matter. */
  lemma MeansFields(f: Formula, s: State, t: State)
    requires Means(f, s) && s.ca == t.ca && s.trail == t.trail && s.lim == t.lim
    ensures Means(f, t)
  {
  }

  lemma SameDbReflexive(ca: Region)
    ensures SameDb(ca, ca)
  {
  }

  lemma SameDbTransitive(ca: Region, cb: Region, cc: Region)
    requires SameDb(ca, cb) && SameDb(cb, cc)
    ensures SameDb(ca, cc)
  {
  }

  lemma SatDbSame(a: Model, ca: Region, cb: Region, facts: seq<Lit>)
    requires SameDb(ca, cb) && SatDb(a, cb, facts)
    ensures SatDb(a, ca, facts)
  {
    forall cr | Live(ca, cr) && !ca[cr].learnt ensures SatClause(a, ca[cr].lits) {
      assert Live(cb, cr);
      var p :| p in cb[cr].lits && Holds(a, p);
      assert p in ca[cr].lits;
    }
  }

  /** Reordering the literals of clauses does not change the meaning. */
  lemma SemSame(f: Formula, ca: Region, cb: Region, facts: seq<Lit>)
    requires SemOk(f, ca, facts) && SameDb(ca, cb)
    ensures SemOk(f, cb, facts)
  {
    forall cr | Live(cb, cr) ensures Entails(f, cb[cr].lits) {
      assert Live(ca, cr);
      SameLitsEntails(f, ca[cr].lits, cb[cr].lits);
    }
    forall a: Model | SatDb(a, cb, facts) ensures SatAll(a, f) {
      SatDbSame(a, ca, cb, facts);
    }
  }

  lemma SemFact(f: Formula, ca: Region, facts: seq<Lit>, p: Lit)
    requires SemOk(f, ca, facts) && Entails(f, [p])
    ensures SemOk(f, ca, facts + [p])
  {
    forall a: Model | SatDb(a, ca, facts + [p]) ensures SatAll(a, f) {
      assert SatDb(a, ca, facts) by {
        forall x | x in facts ensures Holds(a, x) { assert x in facts + [p]; }
      }
    }
  }

  lemma UnitHolds(f: Formula, p: Lit, a: Model)
    requires Entails(f, [p]) && SatAll(a, f)
    ensures Holds(a, p)
  {
    assert SatClause(a, [p]);
  }

  /** A false literal at level 0 is refuted by the formula. */
  lemma RootFalse(f: Formula, s: State, x: Lit)
    requires Struct(s) && Means(f, s)
    requires IsFalse(s.assigns, x) && s.vd[x.v].level == 0
    ensures Entails(f, [Neg(x)])
  {
    var i := s.pos[x.v];
    assert s.trail[i].v == x.v;
    assert s.trail[i] == Neg(x);
    assert AtLevel(s.lim, 0, i);
    assert Facts(s)[i] == Neg(x);
  }

  /** A reason clause at level 0 makes its literal a consequence of the formula. */
  lemma RootImplied(f: Formula, s: State, p: Lit, r: CRef)
    requires Struct(s) && Means(f, s) && s.lim == []
    requires ReasonAt(s.ca, s.assigns, s.pos, p, r, |s.trail|)
    ensures Entails(f, [p])
  {
    var c := s.ca[r].lits;
    forall a: Model | SatAll(a, f) ensures SatClause(a, [p]) {
      assert SatClause(a, c);
      var x :| x in c && Holds(a, x);
      if x != p {
        var k :| 0 <= k < |c| && c[k] == x;
        assert IsFalse(s.assigns, c[k]);
        assert s.trail[s.pos[x.v]].v == x.v;
        RootFalse(f, s, x);
        UnitHolds(f, Neg(x), a);
      }
      assert p in [p];
    }
  }

  /** If every literal of a live clause is false at level 0, the formula has no model. */
  lemma RootConflict(f: Formula, s: State, cr: CRef)
    requires Struct(s) && Means(f, s) && s.lim == [] && Live(s.ca, cr)
    requires forall x :: x in s.ca[cr].lits ==> IsFalse(s.assigns, x)
    ensures Unsat(f)
  {
    forall a: Model | SatAll(a, f) ensures false {
      assert SatClause(a, s.ca[cr].lits);
      var x :| x in s.ca[cr].lits && Holds(a, x);
      assert s.trail[s.pos[x.v]].v == x.v;
      RootFalse(f, s, x);
      UnitHolds(f, Neg(x), a);
    }
  }

  /** Implying a literal keeps the database equivalent to the formula. */
  lemma ImplyMeans(f: Formula, s: State, p: Lit, r: CRef)
    requires Enqueueable(s, p, r) && r != CREF_UNDEF && Means(f, s)
    ensures Means(f, Enqueued(s, p, r))
  {
    var s' := Enqueued(s, p, r);
    if s.lim == [] {
      RootImplied(f, s, p, r);
      SemFact(f, s.ca, s.trail, p);
      assert Facts(s) == s.trail && Facts(s') == s.trail + [p];
    } else {
      assert Facts(s') == Facts(s);
    }
  }
}
