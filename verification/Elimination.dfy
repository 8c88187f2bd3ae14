/** What the preprocessor's state means for the clauses originally given. */
module Elimination {
  import opened Sat
  import opened Resolution
  import opened Reconstruction
  import opened SimpState

  /**
   * The clauses given entail what is left, and applying the records to an assignment
   * that satisfies what is left satisfies the clauses given.
   */
  ghost predicate Reconstructs(f: Formula, recs: seq<Record>, s: Simp) {
    && AllNonEmpty(recs)
    && (forall a: Model :: SatAll(a, f) ==> Models(a, s))
    && (forall a: Model :: Models(a, s) ==> SatAll(Rebuild(recs, a), f))
  }

  function Remaining(gone: seq<bool>): set<Var> {
    set v | 0 <= v < |gone| && !gone[v]
  }

  function Eliminated(gone: seq<bool>): set<Var> {
    set v | 0 <= v < |gone| && gone[v]
  }

  /** The flat buffer holds the records, in an order that gives every eliminated variable a value. */
  ghost predicate Recorded(recs: seq<Record>, buffer: seq<nat>, gone: seq<bool>) {
    && AllNonEmpty(recs) && Encode(recs) == buffer
    && Settles(recs, Remaining(gone)) && Heads(recs) == Eliminated(gone)
  }

  /** The formula left is satisfiable exactly when the formula given is. */
  lemma Equisatisfiable(f: Formula, recs: seq<Record>, s: Simp)
    requires Reconstructs(f, recs, s)
    ensures NoModel(s) <==> Unsat(f)
  {
    if exists a: Model :: Models(a, s) {
      var a: Model :| Models(a, s);
      assert SatAll(Rebuild(recs, a), f);
    }
  }

  lemma SameReconstructs(f: Formula, recs: seq<Record>, s: Simp, t: Simp)
    requires Reconstructs(f, recs, s) && SameModels(s, t)
    ensures Reconstructs(f, recs, t)
  {
    forall a: Model | SatAll(a, f) ensures Models(a, t) {
      assert Models(a, s);
    }
    forall a: Model | Models(a, t) ensures SatAll(Rebuild(recs, a), f) {
      assert Models(a, s);
    }
  }

  /** A model of what is left, extended by the records, is a model of what was given. */
  lemma ExtendedModel(f: Formula, recs: seq<Record>, s: Simp, m: seq<LBool>, gone: seq<bool>, buffer: seq<nat>)
    requires Reconstructs(f, recs, s) && Recorded(recs, buffer, gone) && |m| == |gone|
    requires forall c, p :: c in f && p in c ==> p.v < |gone|
    requires Models(TrailModel(m), s) && forall v :: 0 <= v < |m| && !gone[v] ==> m[v] != Undef
    ensures SatAll(TrailModel(Extend(recs, m)), f)
    ensures forall v :: 0 <= v < |m| ==> Extend(recs, m)[v] != Undef
  {
    hide Settles, Encode, Rebuild, Extend, Heads;
    var a, e := TrailModel(m), Extend(recs, m);
    ExtendAgrees(recs, m, a, Remaining(gone));
    assert forall v :: 0 <= v < |m| ==> v in Remaining(gone) + Heads(recs);
    var b := Rebuild(recs, a);
    assert forall v :: 0 <= v < |m| ==> b(v) == TrailModel(e)(v);
    forall c | c in f ensures SatClause(TrailModel(e), c) {
      assert SatClause(b, c);
      var p :| p in c && Holds(b, p);
      assert Holds(TrailModel(e), p);
    }
  }

  // ---------------------------------------------------------------- eliminating a variable

  function LitsAt(ca: Pool, cr: CRef): seq<Lit> {
    if 0 <= cr < |ca| then ca[cr].lits else []
  }

  function LitsOf(ca: Pool, cs: seq<CRef>): (r: seq<seq<Lit>>)
    ensures |r| == |cs|
  {
    seq(|cs|, i requires 0 <= i < |cs| => LitsAt(ca, cs[i]))
  }

  /** The remaining clauses on v, split by the sign of v. */
  ghost predicate Sides(s: Simp, v: Var, pos: seq<CRef>, neg: seq<CRef>) {
    && (forall cr :: cr in pos ==> Problem(s.ca, cr) && Lit(v, false) in s.ca[cr].lits)
    && (forall cr :: cr in neg ==> Problem(s.ca, cr) && Lit(v, true) in s.ca[cr].lits)
    && (forall cr :: Problem(s.ca, cr) && v in VarsOf(s.ca[cr].lits) ==> cr in pos || cr in neg)
  }

  lemma SidesLits(s: Simp, v: Var, pos: seq<CRef>, neg: seq<CRef>, cs: seq<CRef>, p: Lit, leaving: set<Var>)
    requires Sides(s, v, pos, neg) && Shape(s, leaving)
    requires (cs == pos && p == Lit(v, false)) || (cs == neg && p == Lit(v, true))
    ensures forall cr :: cr in cs ==> 0 <= cr < |s.ca|
    ensures forall i :: 0 <= i < |cs| ==> NoPair(LitsOf(s.ca, cs)[i]) && p in LitsOf(s.ca, cs)[i]
  {
    forall i | 0 <= i < |cs| ensures NoPair(s.ca[cs[i]].lits) && p in s.ca[cs[i]].lits {
      assert cs[i] in cs;
      assert Problem(s.ca, cs[i]);
    }
  }

  lemma PairShape(s: Simp, v: Var, pos: seq<CRef>, neg: seq<CRef>, p: CRef, n: CRef)
    requires Shape(s, {}) && Sides(s, v, pos, neg) && p in pos && n in neg
    ensures Problem(s.ca, p) && Problem(s.ca, n) && NoPair(s.ca[p].lits) && NoPair(s.ca[n].lits)
    ensures v in VarsOf(s.ca[p].lits) && v in VarsOf(s.ca[n].lits)
  {
    assert Lit(v, false).v in VarsOf(s.ca[p].lits);
    assert Lit(v, true).v in VarsOf(s.ca[n].lits);
  }

  /** The main step: replacing the clauses on v by their resolvents can be undone by the new records. */
  lemma EliminationStep(f: Formula, recs: seq<Record>, s: Simp, t: Simp, x: Lit, pos: seq<CRef>, neg: seq<CRef>,
                        new_: seq<Record>)
    requires Reconstructs(f, recs, s) && Shape(s, {}) && Sides(s, x.v, pos, neg) && IsUndef(s.assigns, x)
    requires forall cr :: cr in pos || cr in neg ==> 0 <= cr < |s.ca|
    requires SideRecords(new_, LitsOf(s.ca, if x.neg then pos else neg), x)
    requires forall a: Model :: Models(a, s) ==> Models(a, t)
    requires forall a: Model :: Models(a, t) ==>
               ModelsBut(a, s, x.v) && AllResolventsHold(a, LitsOf(s.ca, pos), LitsOf(s.ca, neg), x.v)
    ensures Reconstructs(f, recs + new_ + [[x]], t)
  {
    hide Shape, ModelsBut, AllResolventsHold;
    var group := new_ + [[x]];
    assert AllNonEmpty(group);
    assert recs + group == recs + new_ + [[x]];
    forall a: Model | Models(a, t) ensures SatAll(Rebuild(recs + group, a), f) {
      RebuildAppend(recs, group, a);
      var b := Rebuild(group, a);
      UndoneModels(s, x, pos, neg, new_, a);
      assert Models(b, s);
    }
  }

  lemma UndoneModels(s: Simp, x: Lit, pos: seq<CRef>, neg: seq<CRef>, new_: seq<Record>, a: Model)
    requires Shape(s, {}) && Sides(s, x.v, pos, neg) && IsUndef(s.assigns, x)
    requires forall cr :: cr in pos || cr in neg ==> 0 <= cr < |s.ca|
    requires SideRecords(new_, LitsOf(s.ca, if x.neg then pos else neg), x)
    requires ModelsBut(a, s, x.v) && AllResolventsHold(a, LitsOf(s.ca, pos), LitsOf(s.ca, neg), x.v)
    ensures AllNonEmpty(new_ + [[x]]) && Models(Rebuild(new_ + [[x]], a), s)
  {
    hide Shape, AllResolventsHold, AllNonEmpty, NoPair, SideRecords, VarsOf;
    var ps, ns := LitsOf(s.ca, pos), LitsOf(s.ca, neg);
    SidesLits(s, x.v, pos, neg, pos, Lit(x.v, false), {});
    SidesLits(s, x.v, pos, neg, neg, Lit(x.v, true), {});
    if x.neg {
      ResolventsFlip(a, ps, ns, x.v);
      EliminationUndone(new_, x, ns, ps, a);
    } else {
      EliminationUndone(new_, x, ps, ns, a);
    }
    var b := Rebuild(new_ + [[x]], a);
    forall cr | Problem(s.ca, cr) ensures SatClause(b, s.ca[cr].lits) {
      if cr in pos {
        var i :| 0 <= i < |pos| && pos[i] == cr;
        assert SatClause(b, ps[i]);
      } else if cr in neg {
        var i :| 0 <= i < |neg| && neg[i] == cr;
        assert SatClause(b, ns[i]);
      } else {
        SatElsewhere(a, b, s.ca[cr].lits, x.v);
      }
    }
    FactsElsewhere(s, x, a, b);
  }

  lemma ResolventsFlip(a: Model, ps: seq<seq<Lit>>, ns: seq<seq<Lit>>, v: Var)
    requires (forall i :: 0 <= i < |ps| ==> NoPair(ps[i])) && (forall j :: 0 <= j < |ns| ==> NoPair(ns[j]))
    requires AllResolventsHold(a, ps, ns, v)
    ensures AllResolventsHold(a, ns, ps, v)
  {
    forall j, i | 0 <= j < |ns| && 0 <= i < |ps|
      ensures Clash(ns[j], ps[i], v) || SatClause(a, Resolvent(ns[j], ps[i], v))
    {
      ResolventSymmetric(a, ps[i], ns[j], v);
    }
  }

  lemma SatElsewhere(a: Model, b: Model, c: seq<Lit>, v: Var)
    requires SatClause(a, c) && v !in VarsOf(c) && forall y :: y != v ==> b(y) == a(y)
    ensures SatClause(b, c)
  {
    var p :| p in c && Holds(a, p);
    assert p.v in VarsOf(c);
    assert Holds(b, p);
  }

  lemma FactsElsewhere(s: Simp, x: Lit, a: Model, b: Model)
    requires Shape(s, {}) && IsUndef(s.assigns, x) && forall y :: y != x.v ==> b(y) == a(y)
    requires forall p :: p in s.trail ==> Holds(a, p)
    ensures forall p :: p in s.trail ==> Holds(b, p)
  {
    forall p | p in s.trail ensures p.v != x.v {
      assert IsTrue(s.assigns, p);
    }
  }

  /** The new group gives the eliminated variable its value. */
  lemma RecordedStep(recs: seq<Record>, buffer: seq<nat>, gone: seq<bool>, x: Lit, new_: seq<Record>, more: seq<nat>)
    requires Recorded(recs, buffer, gone) && x.v < |gone| && !gone[x.v] && AllNonEmpty(new_)
    requires forall k, i :: 0 <= k < |new_| && 0 <= i < |new_[k]| ==> new_[k][i].v in Remaining(gone)
    requires forall k :: 0 <= k < |new_| ==> new_[k][0].v == x.v
    requires more == Encode(recs + new_) + [ToInt(x)] + [1]
    ensures Recorded(recs + new_ + [[x]], more, gone[x.v := true])
  {
    hide Encode, Settles, Heads;
    var group := new_ + [[x]];
    assert recs + group == recs + new_ + [[x]];
    GroupLast(recs + new_, x);
    RemainingLess(gone, x.v);
    hide Remaining, Eliminated;
    GroupSettles(new_, x, Remaining(gone[x.v := true]));
    SettlesAppend(recs, group, Remaining(gone[x.v := true]));
    HeadsAppend(recs, group);
  }

  lemma GroupLast(recs: seq<Record>, x: Lit)
    ensures Encode(recs + [[x]]) == Encode(recs) + [ToInt(x)] + [1]
  {
    EncodePush(recs, [x]);
    assert Codes([x]) == [ToInt(x)];
  }

  lemma RemainingLess(gone: seq<bool>, v: Var)
    requires v < |gone| && !gone[v]
    ensures Remaining(gone[v := true]) + {v} == Remaining(gone)
    ensures Eliminated(gone[v := true]) == Eliminated(gone) + {v}
  {
  }

  lemma HeadsAppend(older: seq<Record>, newer: seq<Record>)
    requires AllNonEmpty(older) && AllNonEmpty(newer)
    ensures AllNonEmpty(older + newer) && Heads(older + newer) == Heads(older) + Heads(newer)
  {
    var all := older + newer;
    forall x | x in Heads(older) ensures x in Heads(all) {
      var k :| 0 <= k < |older| && older[k][0].v == x;
      assert all[k][0].v == x;
    }
    forall x | x in Heads(newer) ensures x in Heads(all) {
      var k :| 0 <= k < |newer| && newer[k][0].v == x;
      assert all[|older| + k][0].v == x;
    }
    forall x | x in Heads(all) ensures x in Heads(older) + Heads(newer) {
      var k :| 0 <= k < |all| && all[k][0].v == x;
      if k < |older| {
        assert older[k][0].v == x;
      } else {
        assert newer[k - |older|][0].v == x;
      }
    }
  }

  // ---------------------------------------------------------------- the growth limit

  /** One clause for a pair whose resolvent is not a tautology. */
  ghost function NewClauses(ca: Pool, p: CRef, n: CRef, v: Var): nat {
    if 0 <= p < |ca| && 0 <= n < |ca| && Clash(ca[p].lits, ca[n].lits, v) then 0 else 1
  }

  ghost function RowCount(ca: Pool, p: CRef, ns: seq<CRef>, v: Var, j: nat): nat
    requires j <= |ns|
  {
    if j == 0 then 0 else RowCount(ca, p, ns, v, j - 1) + NewClauses(ca, p, ns[j - 1], v)
  }

  /** The number of resolvents of the first i clauses of ps with those of ns. */
  ghost function PairCount(ca: Pool, ps: seq<CRef>, ns: seq<CRef>, v: Var, i: nat): nat
    requires i <= |ps|
  {
    if i == 0 then 0 else PairCount(ca, ps, ns, v, i - 1) + RowCount(ca, ps[i - 1], ns, v, |ns|)
  }

  /** The resolvent of a pair respects the limit on clause size. */
  ghost predicate ShortEnough(ca: Pool, lim: int, p: CRef, n: CRef, v: Var) {
    0 <= p < |ca| && 0 <= n < |ca| ==>
      lim == -1 || Clash(ca[p].lits, ca[n].lits, v) || |Resolvent(ca[p].lits, ca[n].lits, v)| <= lim
  }

  /** Eliminating v adds few enough clauses for those it removes, each short enough. */
  ghost predicate WorthIt(ca: Pool, lim: int, grow: int, v: Var, pos: seq<CRef>, neg: seq<CRef>) {
    var n := PairCount(ca, pos, neg, v, |pos|);
    && (n == 0 || n <= |pos| + |neg| + grow)
    && forall i, j :: 0 <= i < |pos| && 0 <= j < |neg| ==> ShortEnough(ca, lim, pos[i], neg[j], v)
  }

  lemma {:induction false} RowGrows(ca: Pool, p: CRef, ns: seq<CRef>, v: Var, i: nat, j: nat)
    requires i <= j <= |ns|
    ensures RowCount(ca, p, ns, v, i) <= RowCount(ca, p, ns, v, j)
    decreases j
  {
    if i < j {
      RowGrows(ca, p, ns, v, i, j - 1);
    }
  }

  lemma {:induction false} PairGrows(ca: Pool, ps: seq<CRef>, ns: seq<CRef>, v: Var, i: nat, j: nat)
    requires i <= j <= |ps|
    ensures PairCount(ca, ps, ns, v, i) <= PairCount(ca, ps, ns, v, j)
    decreases j
  {
    if i < j {
      PairGrows(ca, ps, ns, v, i, j - 1);
    }
  }

  // ---------------------------------------------------------------- producing and removing

  /** The pair is a tautology, or its resolvent is secured. */
  ghost predicate Produced(s: Simp, t: Simp, v: Var, p: CRef, n: CRef)
    requires 0 <= p < |s.ca| && 0 <= n < |s.ca|
  {
    Clash(s.ca[p].lits, s.ca[n].lits, v) || Secured(t, Resolvent(s.ca[p].lits, s.ca[n].lits, v))
  }

  lemma ProducedLater(s: Simp, t: Simp, u: Simp, v: Var, p: CRef, n: CRef)
    requires 0 <= p < |s.ca| && 0 <= n < |s.ca| && Produced(s, t, v, p, n) && Grown(t, u)
    ensures Produced(s, u, v, p, n)
  {
    if !Clash(s.ca[p].lits, s.ca[n].lits, v) {
      GrownSecured(t, u, Resolvent(s.ca[p].lits, s.ca[n].lits, v));
    }
  }

  /** Resolving reordered clauses is the same as resolving the clauses. */
  lemma ReorderedResolvent(ps: seq<Lit>, qs: seq<Lit>, ps': seq<Lit>, qs': seq<Lit>, v: Var)
    requires NoPair(ps) && NoPair(qs) && NoPair(ps') && NoPair(qs') && SameLits(ps, ps') && SameLits(qs, qs')
    ensures Clash(ps, qs, v) <==> Clash(ps', qs', v)
    ensures !Clash(ps, qs, v) ==>
              forall p :: p in Resolvent(ps, qs, v) <==> p in Resolvent(ps', qs', v)
  {
    if !Clash(ps, qs, v) {
      ResolventMembers(ps, qs, v);
      ResolventMembers(ps', qs', v);
    }
  }

  lemma SecuredSame(t: Simp, c: seq<Lit>, d: seq<Lit>)
    requires Secured(t, c) && forall p :: p in c <==> p in d
    ensures Secured(t, d)
  {
    assert VarsOf(c) == VarsOf(d);
    forall a: Model, v | v !in VarsOf(d) && ModelsBut(a, t, v) ensures SatClause(a, d) {
      var p :| p in c && Holds(a, p);
      assert p in d;
    }
  }

  /** A pair is still there after the pool has grown. */
  lemma GrownPair(s: Simp, t: Simp, p: CRef, n: CRef, v: Var)
    requires Shape(s, {v}) && Shape(t, {v}) && Grown(s, t) && Problem(s.ca, p) && Problem(s.ca, n)
    requires Lit(v, false) in s.ca[p].lits && Lit(v, true) in s.ca[n].lits
    ensures Problem(t.ca, p) && Problem(t.ca, n) && NoPair(t.ca[p].lits) && NoPair(t.ca[n].lits)
    ensures Lit(v, false) in t.ca[p].lits && Lit(v, true) in t.ca[n].lits
    ensures Clash(s.ca[p].lits, s.ca[n].lits, v) <==> Clash(t.ca[p].lits, t.ca[n].lits, v)
  {
    assert Problem(t.ca, p) && Problem(t.ca, n);
    ReorderedResolvent(s.ca[p].lits, s.ca[n].lits, t.ca[p].lits, t.ca[n].lits, v);
  }

  lemma ProducedNow(s: Simp, t: Simp, u: Simp, v: Var, p: CRef, n: CRef, c: seq<Lit>)
    requires Shape(s, {v}) && Shape(t, {v}) && Grown(s, t) && Problem(s.ca, p) && Problem(s.ca, n)
    requires !Clash(t.ca[p].lits, t.ca[n].lits, v) ==> c == Resolvent(t.ca[p].lits, t.ca[n].lits, v) && Secured(u, c)
    ensures Produced(s, u, v, p, n)
  {
    assert Problem(t.ca, p) && Problem(t.ca, n);
    ReorderedResolvent(s.ca[p].lits, s.ca[n].lits, t.ca[p].lits, t.ca[n].lits, v);
    if !Clash(s.ca[p].lits, s.ca[n].lits, v) {
      SecuredSame(u, c, Resolvent(s.ca[p].lits, s.ca[n].lits, v));
    }
  }

  /** The resolvent of two remaining clauses is entailed. */
  lemma ResolventEntailed(s: Simp, v: Var, p: CRef, n: CRef, leaving: set<Var>)
    requires Shape(s, leaving) && Problem(s.ca, p) && Problem(s.ca, n)
    requires Lit(v, false) in s.ca[p].lits && Lit(v, true) in s.ca[n].lits
    requires !Clash(s.ca[p].lits, s.ca[n].lits, v)
    ensures forall a: Model :: Models(a, s) ==> SatClause(a, Resolvent(s.ca[p].lits, s.ca[n].lits, v))
  {
    forall a: Model | Models(a, s) ensures SatClause(a, Resolvent(s.ca[p].lits, s.ca[n].lits, v)) {
      ResolventHolds(a, s.ca[p].lits, s.ca[n].lits, v);
    }
  }

  /** The variables of a resolvent are still in use. */
  lemma ResolventVars(s: Simp, v: Var, p: CRef, n: CRef)
    requires Shape(s, {v}) && Problem(s.ca, p) && Problem(s.ca, n)
    requires !Clash(s.ca[p].lits, s.ca[n].lits, v)
    ensures forall q :: q in Resolvent(s.ca[p].lits, s.ca[n].lits, v) ==> q.v < |s.assigns| && !s.gone[q.v] && q.v != v
  {
    ResolventMembers(s.ca[p].lits, s.ca[n].lits, v);
  }

  /** From ca to cb exactly the clauses in cs were deleted. */
  ghost predicate DeletedAll(ca: Pool, cb: Pool, cs: seq<CRef>) {
    && |cb| == |ca|
    && forall cr :: 0 <= cr < |ca| ==> cb[cr] == if cr in cs then ca[cr].(mark := 1) else ca[cr]
  }

  lemma DeletedStep(ca: Pool, cb: Pool, cs: seq<CRef>, cr: CRef)
    requires DeletedAll(ca, cb, cs) && 0 <= cr < |ca|
    ensures DeletedAll(ca, Deleted(cb, cr), cs + [cr])
  {
  }

  /** With the clauses on v gone, what is left implies what was there apart from v. */
  lemma RemovedModels(s: Simp, t: Simp, u: Simp, v: Var, cs: seq<CRef>)
    requires Grown(s, t) && DeletedAll(t.ca, u.ca, cs) && u.trail == t.trail
    requires forall cr :: cr in cs ==> Problem(t.ca, cr) && v in VarsOf(t.ca[cr].lits)
    ensures forall a: Model :: Models(a, t) ==> Models(a, u)
    ensures forall a: Model :: Models(a, u) ==> ModelsBut(a, t, v) && ModelsBut(a, s, v)
  {
    forall cr | Problem(u.ca, cr) ensures Problem(t.ca, cr) && u.ca[cr] == t.ca[cr] {
    }
    forall a: Model | Models(a, u) ensures ModelsBut(a, t, v) && ModelsBut(a, s, v) {
      forall cr | Problem(t.ca, cr) && v !in VarsOf(t.ca[cr].lits) ensures SatClause(a, t.ca[cr].lits) {
        assert Problem(u.ca, cr);
      }
      GrownModelsBut(s, t, a, v);
    }
  }

  /** Once no remaining clause mentions v, it has left. */
  lemma LeftBehind(s: Simp, v: Var, cs: seq<CRef>, ca: Pool)
    requires Shape(s, {v}) && DeletedAll(ca, s.ca, cs) && v < |s.occurs|
    requires forall cr :: Problem(ca, cr) && v in VarsOf(ca[cr].lits) ==> cr in cs
    ensures Shape(s.(occurs := s.occurs[v := []]), {})
  {
    var t := s.(occurs := s.occurs[v := []]);
    forall cr | Problem(t.ca, cr) ensures v !in VarsOf(t.ca[cr].lits) && ClauseFit(t.ca[cr], |t.assigns|, t.gone, {}) {
      assert Problem(ca, cr) && ca[cr] == t.ca[cr];
      assert v !in VarsOf(t.ca[cr].lits);
      forall p | p in t.ca[cr].lits ensures p.v != v {
        assert p.v in VarsOf(t.ca[cr].lits);
      }
    }
    forall cr, p | Problem(t.ca, cr) && p in t.ca[cr].lits && p.v < |t.occurs| ensures cr in t.occurs[p.v] {
      assert p.v in VarsOf(t.ca[cr].lits);
    }
  }

  /** Every pair of the first i clauses of pos with neg has been dealt with. */
  ghost predicate ProducedAll(s: Simp, t: Simp, v: Var, pos: seq<CRef>, neg: seq<CRef>) {
    forall p, n :: p in pos && n in neg && 0 <= p < |s.ca| && 0 <= n < |s.ca| ==> Produced(s, t, v, p, n)
  }

  lemma ProducedAllLater(s: Simp, t: Simp, u: Simp, v: Var, pos: seq<CRef>, neg: seq<CRef>)
    requires ProducedAll(s, t, v, pos, neg) && Grown(t, u)
    ensures ProducedAll(s, u, v, pos, neg)
  {
    forall p, n | p in pos && n in neg && 0 <= p < |s.ca| && 0 <= n < |s.ca| ensures Produced(s, u, v, p, n) {
      ProducedLater(s, t, u, v, p, n);
    }
  }

  lemma ProducedHold(s: Simp, t: Simp, v: Var, pos: seq<CRef>, neg: seq<CRef>, a: Model)
    requires Shape(s, {v}) && Sides(s, v, pos, neg) && ProducedAll(s, t, v, pos, neg) && ModelsBut(a, t, v)
    requires forall cr :: cr in pos || cr in neg ==> 0 <= cr < |s.ca|
    ensures AllResolventsHold(a, LitsOf(s.ca, pos), LitsOf(s.ca, neg), v)
  {
    var ps, ns := LitsOf(s.ca, pos), LitsOf(s.ca, neg);
    forall i, j | 0 <= i < |ps| && 0 <= j < |ns| && !Clash(ps[i], ns[j], v)
      ensures SatClause(a, Resolvent(ps[i], ns[j], v))
    {
      assert pos[i] in pos && neg[j] in neg;
      assert Produced(s, t, v, pos[i], neg[j]);
      ResolventVars(s, v, pos[i], neg[j]);
    }
  }

  /** Marking a variable eliminated, before its clauses go. */
  lemma LeavingShape(s: Simp, v: Var)
    requires Shape(s, {}) && v < |s.gone|
    ensures Shape(s.(gone := s.gone[v := true]), {v})
  {
  }

  lemma SideVars(s: Simp, v: Var, pos: seq<CRef>, neg: seq<CRef>, side: seq<CRef>, new_: seq<Record>, x: Lit)
    requires Shape(s, {}) && Sides(s, v, pos, neg) && (side == pos || side == neg)
    requires forall cr :: cr in side ==> 0 <= cr < |s.ca|
    requires SideRecords(new_, LitsOf(s.ca, side), x)
    ensures AllNonEmpty(new_)
    ensures forall k, i :: 0 <= k < |new_| && 0 <= i < |new_[k]| ==> new_[k][i].v in Remaining(s.gone)
  {
    forall k, i | 0 <= k < |new_| && 0 <= i < |new_[k]| ensures new_[k][i].v in Remaining(s.gone) {
      assert side[k] in side;
      assert Problem(s.ca, side[k]);
      assert new_[k][i] in LitsOf(s.ca, side)[k];
    }
  }

  lemma SidesProblem(s: Simp, v: Var, pos: seq<CRef>, neg: seq<CRef>)
    requires Sides(s, v, pos, neg) && Shape(s, {})
    ensures forall cr :: cr in pos ==> Problem(s.ca, cr) && Lit(v, false) in s.ca[cr].lits && NoPair(s.ca[cr].lits)
    ensures forall cr :: cr in neg ==> Problem(s.ca, cr) && Lit(v, true) in s.ca[cr].lits && NoPair(s.ca[cr].lits)
  {
  }

  lemma RecordedBuffer(recs: seq<Record>, buffer: seq<nat>, gone: seq<bool>)
    requires Recorded(recs, buffer, gone)
    ensures Encode(recs) == buffer
  {
  }

  lemma SideHeads(new_: seq<Record>, cs: seq<seq<Lit>>, x: Lit)
    requires SideRecords(new_, cs, x)
    ensures forall k :: 0 <= k < |new_| ==> new_[k] != [] && new_[k][0].v == x.v
  {
  }

  lemma SidesGone(s: Simp, t: Simp, v: Var, pos: seq<CRef>, neg: seq<CRef>)
    requires Sides(s, v, pos, neg) && t.ca == s.ca
    ensures Sides(t, v, pos, neg)
  {
  }

  /** The list of v names exactly the remaining clauses on v, also after the pool has grown. */
  lemma ListedExactly(s: Simp, v: Var, leaving: set<Var>)
    requires Shape(s, leaving) && v < |s.occurs|
    ensures forall cr :: Problem(s.ca, cr) && v in VarsOf(s.ca[cr].lits) ==> cr in s.occurs[v]
  {
    forall cr | Problem(s.ca, cr) && v in VarsOf(s.ca[cr].lits) ensures cr in s.occurs[v] {
      var p :| p in s.ca[cr].lits && p.v == v;
    }
  }

  lemma ListedOn(s: Simp, t: Simp, v: Var, leaving: set<Var>)
    requires Shape(s, leaving) && v < |s.occurs| && Grown(s, t)
    requires forall cr :: cr in s.occurs[v] ==> Problem(s.ca, cr)
    ensures forall cr :: cr in s.occurs[v] ==> Problem(t.ca, cr) && v in VarsOf(t.ca[cr].lits)
  {
    forall cr | cr in s.occurs[v] ensures Problem(t.ca, cr) && v in VarsOf(t.ca[cr].lits) {
      assert OccursOk(s.ca, v, cr, s.dirty[v]);
      ShuffledVars(s.ca[cr], t.ca[cr]);
    }
  }

  /** The whole replacement, seen from before to after. */
  lemma ReplacedReconstructs(f: Formula, recs: seq<Record>, s0: Simp, s: Simp, t: Simp, u: Simp, w: Simp, x: Lit,
                             pos: seq<CRef>, neg: seq<CRef>, cls: seq<CRef>, new_: seq<Record>)
    requires Reconstructs(f, recs, s0) && Shape(s0, {}) && Sides(s0, x.v, pos, neg) && IsUndef(s0.assigns, x)
    requires s == s0.(gone := s.gone) && Shape(s, {x.v})
    requires forall cr :: cr in pos || cr in neg ==> 0 <= cr < |s0.ca|
    requires SideRecords(new_, LitsOf(s0.ca, if x.neg then pos else neg), x)
    requires Grown(s, t) && SameModels(s, t) && ProducedAll(s, t, x.v, pos, neg)
    requires DeletedAll(t.ca, u.ca, cls) && u.trail == t.trail && w.ca == u.ca && w.trail == u.trail
    requires forall cr :: cr in cls ==> Problem(t.ca, cr) && x.v in VarsOf(t.ca[cr].lits)
    ensures Reconstructs(f, recs + new_ + [[x]], w)
  {
    hide Shape, Reconstructs, ProducedAll, AllResolventsHold, Models, ModelsBut, Grown, DeletedAll, SideRecords;
    RemovedModels(s, t, w, x.v, cls);
    SameClauses(s0, s);
    assert Sides(s, x.v, pos, neg);
    forall a: Model | Models(a, w)
      ensures ModelsBut(a, s0, x.v) && AllResolventsHold(a, LitsOf(s0.ca, pos), LitsOf(s0.ca, neg), x.v)
    {
      ProducedHold(s, t, x.v, pos, neg, a);
      assert ModelsBut(a, s, x.v);
      ButSame(a, s, s0, x.v);
    }
    EliminationStep(f, recs, s0, w, x, pos, neg, new_);
  }

  lemma ButSame(a: Model, s: Simp, t: Simp, v: Var)
    requires ModelsBut(a, s, v) && s.ca == t.ca && s.trail == t.trail
    ensures ModelsBut(a, t, v)
  {
  }

  // ---------------------------------------------------------------- bookkeeping

  ghost predicate Within(f: Formula, n: nat) {
    forall c, p :: c in f && p in c ==> p.v < n
  }

  /** Eliminated variables stay eliminated, and only unfrozen ones joined them. */
  ghost predicate NewlyEliminated(before: seq<bool>, after: seq<bool>, frozen: seq<bool>) {
    && |before| == |after| == |frozen|
    && forall v :: 0 <= v < |after| ==> (before[v] ==> after[v]) && (after[v] && !before[v] ==> !frozen[v])
  }

  lemma NewlyReflexive(gone: seq<bool>, frozen: seq<bool>)
    requires |gone| == |frozen|
    ensures NewlyEliminated(gone, gone, frozen)
  {
  }

  lemma NewlyTransitive(a: seq<bool>, b: seq<bool>, c: seq<bool>, frozen: seq<bool>)
    requires NewlyEliminated(a, b, frozen) && NewlyEliminated(b, c, frozen)
    ensures NewlyEliminated(a, c, frozen)
    ensures b != c ==> Remaining(c) < Remaining(b) && a != c
  {
    if b != c {
      var v :| 0 <= v < |b| && b[v] != c[v];
      assert v in Remaining(b) && v !in Remaining(c);
    }
  }

  lemma NewlyStep(a: seq<bool>, b: seq<bool>, c: seq<bool>, frozen: seq<bool>, v: Var)
    requires NewlyEliminated(a, b, frozen) && v < |b| && !b[v] && !frozen[v]
    requires c == b || c == b[v := true]
    ensures NewlyEliminated(a, c, frozen)
    ensures c != b ==> Remaining(c) < Remaining(b)
    ensures c != b ==> a != c
  {
    if c != b {
      assert v in Remaining(b) && v !in Remaining(c);
    }
  }

  // ---------------------------------------------------------------- no variable is passed over

  /** Each of these variables is frozen, eliminated or assigned, or its elimination has been tried. */
  ghost predicate Considered(vs: set<Var>, frozen: seq<bool>, gone: seq<bool>, assigns: seq<LBool>, tried: seq<Var>) {
    forall v :: v in vs ==>
      || v in tried || (v < |frozen| && frozen[v]) || (v < |gone| && gone[v])
      || (v < |assigns| && assigns[v] != Undef)
  }

  lemma AssignedStays(s: Simp, t: Simp)
    requires Shape(s, {}) && Shape(t, {}) && s.trail <= t.trail
    ensures forall v :: 0 <= v < |s.assigns| && v < |t.assigns| && s.assigns[v] != Undef ==> t.assigns[v] != Undef
  {
    forall v | 0 <= v < |s.assigns| && v < |t.assigns| && s.assigns[v] != Undef ensures t.assigns[v] != Undef {
      assert Lit(v, s.assigns[v] == False) in s.trail;
      assert IsTrue(t.assigns, Lit(v, s.assigns[v] == False));
    }
  }

  lemma ConsideredLater(vs: set<Var>, us: set<Var>, frozen: seq<bool>, s: Simp, t: Simp, tried: seq<Var>,
                        tried': seq<Var>)
    requires Considered(vs, frozen, s.gone, s.assigns, tried) && us <= vs && tried <= tried'
    requires NewlyEliminated(s.gone, t.gone, frozen) && |s.assigns| == |t.assigns|
    requires Shape(s, {}) && Shape(t, {}) && s.trail <= t.trail
    ensures Considered(us, frozen, t.gone, t.assigns, tried')
  {
    AssignedStays(s, t);
  }

  lemma ConsideredNone(frozen: seq<bool>, gone: seq<bool>, assigns: seq<LBool>, tried: seq<Var>)
    ensures Considered({}, frozen, gone, assigns, tried)
  {
  }

  lemma ConsideredFewer(vs: set<Var>, us: set<Var>, frozen: seq<bool>, gone: seq<bool>, assigns: seq<LBool>,
                        tried: seq<Var>, tried': seq<Var>)
    requires Considered(vs, frozen, gone, assigns, tried) && us <= vs && forall v :: v in tried ==> v in tried'
    ensures Considered(us, frozen, gone, assigns, tried')
  {
  }

  lemma ConsideredJoin(vs: set<Var>, us: set<Var>, frozen: seq<bool>, gone: seq<bool>, assigns: seq<LBool>,
                       tried: seq<Var>)
    requires Considered(vs, frozen, gone, assigns, tried) && Considered(us, frozen, gone, assigns, tried)
    ensures Considered(vs + us, frozen, gone, assigns, tried)
  {
  }

  lemma ConsideredOne(vs: set<Var>, v: Var, frozen: seq<bool>, gone: seq<bool>, assigns: seq<LBool>, tried: seq<Var>)
    requires Considered(vs, frozen, gone, assigns, tried)
    requires
      || v in tried || (v < |frozen| && frozen[v]) || (v < |gone| && gone[v])
      || (v < |assigns| && assigns[v] != Undef)
    ensures Considered(vs + {v}, frozen, gone, assigns, tried)
  {
  }

  /** Eliminating v would not pay. */
  ghost predicate Refused(s: Simp, lim: int, grow: int, v: Var) {
    exists pos, neg :: Sides(s, v, pos, neg) && !WorthIt(s.ca, lim, grow, v, pos, neg)
  }

  lemma RefusedSame(s: Simp, t: Simp, lim: int, grow: int, v: Var, pos: seq<CRef>, neg: seq<CRef>)
    requires s.ca == t.ca && Sides(s, v, pos, neg) && !WorthIt(s.ca, lim, grow, v, pos, neg)
    ensures Refused(t, lim, grow, v)
  {
    assert Sides(t, v, pos, neg);
  }

  lemma WithinAppend(f: Formula, ps: seq<Lit>, n: nat)
    requires Within(f, n) && forall p :: p in ps ==> p.v < n
    ensures Within(f + [ps], n)
  {
  }

  lemma WithinMore(f: Formula, n: nat)
    requires Within(f, n)
    ensures Within(f, n + 1)
  {
  }

  /** Records of earlier eliminations do not disturb a clause over variables still in use. */
  lemma ClauseReconstructs(f: Formula, recs: seq<Record>, s: Simp, t: Simp, ps: seq<Lit>, buffer: seq<nat>,
                           gone: seq<bool>)
    requires Reconstructs(f, recs, s) && Recorded(recs, buffer, gone) && Grown(s, t) && Secured(t, ps)
    requires forall a: Model :: Models(a, s) && SatClause(a, ps) ==> Models(a, t)
    requires forall p :: p in ps ==> p.v < |gone| && !gone[p.v]
    ensures Reconstructs(f + [ps], recs, t)
  {
    forall a: Model | SatAll(a, f + [ps]) ensures Models(a, t) {
      assert forall c :: c in f ==> c in f + [ps];
      assert ps in f + [ps];
      assert Models(a, s);
    }
    forall a: Model | Models(a, t) ensures SatAll(Rebuild(recs, a), f + [ps]) {
      GrownModels(s, t, a);
      var b := Rebuild(recs, a);
      assert SatAll(b, f);
      assert SatClause(b, ps) by {
        assert |gone| !in VarsOf(ps);
        assert ModelsBut(a, t, |gone|);
        var p :| p in ps && Holds(a, p);
        forall k | 0 <= k < |recs| ensures recs[k][0].v != p.v {
          assert recs[k][0].v in Heads(recs);
        }
        RebuildElsewhere(recs, a, p.v);
      }
    }
  }

  /** t has one more variable than s. */
  ghost predicate OneWider(s: Simp, t: Simp) {
    && t.ca == s.ca && t.trail == s.trail && t.queue == s.queue
    && t.assigns == s.assigns + [Undef] && t.gone == s.gone + [false]
    && ((t.occurs == s.occurs && t.dirty == s.dirty && s.occurs == []) ||
        (t.occurs == s.occurs + [[]] && t.dirty == s.dirty + [false] && |s.occurs| == |s.assigns|))
  }

  lemma WidenShape(s: Simp, t: Simp)
    requires Shape(s, {}) && OneWider(s, t)
    ensures Shape(t, {})
  {
    forall v | 0 <= v < |t.assigns| && t.assigns[v] != Undef ensures Lit(v, t.assigns[v] == False) in t.trail {
      assert v < |s.assigns|;
    }
    forall v, cr | 0 <= v < |t.occurs| && cr in t.occurs[v] ensures OccursOk(t.ca, v, cr, t.dirty[v]) {
      assert OccursOk(s.ca, v, cr, s.dirty[v]);
    }
    forall cr, p | Problem(t.ca, cr) && p in t.ca[cr].lits && p.v < |t.occurs| ensures cr in t.occurs[p.v] {
      assert p.v < |s.assigns|;
    }
  }

  lemma WidenRecorded(recs: seq<Record>, buffer: seq<nat>, gone: seq<bool>)
    requires Recorded(recs, buffer, gone)
    ensures Recorded(recs, buffer, gone + [false])
  {
    assert Remaining(gone) <= Remaining(gone + [false]);
    SettlesMore(recs, Remaining(gone), Remaining(gone + [false]));
    assert Eliminated(gone + [false]) == Eliminated(gone);
  }

  lemma HeadsBelow(recs: seq<Record>, buffer: seq<nat>, gone: seq<bool>)
    requires Recorded(recs, buffer, gone)
    ensures AllNonEmpty(recs) && forall k :: 0 <= k < |recs| ==> recs[k][0].v < |gone|
  {
    forall k | 0 <= k < |recs| ensures recs[k][0].v < |gone| {
      assert recs[k][0].v in Heads(recs);
    }
  }

  function AllTrue(n: nat): seq<LBool> {
    seq(n, _ => True)
  }

  lemma ExtendLast(recs: seq<Record>, k: nat, m: seq<LBool>)
    requires 0 < k <= |recs| && AllNonEmpty(recs[..k])
    ensures recs[..k][k - 1] == recs[k - 1] != [] && AllNonEmpty(recs[..k - 1])
    ensures recs[..k][..k - 1] == recs[..k - 1]
    ensures Extend(recs[..k], m) == Extend(recs[..k - 1], ApplyPartial(recs[k - 1], m))
  {
    assert recs[..k][..k - 1] == recs[..k - 1];
  }

  lemma ExtendDone(recs: seq<Record>, m: seq<LBool>)
    requires AllNonEmpty(recs) && |Encode(recs)| <= 1
    ensures Extend(recs, m) == m
  {
  }

  /** Where the last record lies in the buffer. */
  lemma LastRecord(all: seq<Record>, buffer: seq<nat>, i: nat)
    requires i < |buffer| && Encode(all) == buffer[..i + 1] && AllNonEmpty(all)
    ensures all != []
    ensures var r := all[|all| - 1];
            && buffer[i] == |r| && i - |r| >= 0 && |r| >= 1
            && (forall k :: 0 <= k < |r| ==> buffer[i - |r| + k] == ToInt(r[k]))
            && Encode(all[..|all| - 1]) == buffer[..i - |r|]
  {
    var r, e := all[|all| - 1], Encode(all);
    var front := Encode(all[..|all| - 1]);
    assert e == front + Codes(r) + [|r|];
    assert |front| == i - |r|;
    assert e[..|front|] == front;
    forall k | 0 <= k < |r| ensures buffer[i - |r| + k] == ToInt(r[k]) {
      assert e[|front| + k] == Codes(r)[k];
    }
  }
}
