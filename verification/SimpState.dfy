/** The preprocessor's clause store, occurrence lists and level-0 facts, and what they mean. */
module SimpState {
  import opened Sat
  import opened Resolution

  /** A clause of the preprocessor: marked 1 when deleted, 2 while it waits to be queued. */
  datatype SClause = SClause(lits: seq<Lit>, mark: nat, abs: Mask)

  /** A reference is an index into the pool. Index 0 holds the scratch unit `bwdsub_tmpunit`. */
  type CRef = int
  const TMP: CRef := 0
  type Pool = seq<SClause>

  /** A clause of the problem that has not been deleted. */
  predicate Problem(ca: Pool, cr: CRef) {
    0 < cr < |ca| && ca[cr].mark != 1
  }

  datatype Simp = Simp(ca: Pool, assigns: seq<LBool>, trail: seq<Lit>, occurs: seq<seq<CRef>>, dirty: seq<bool>,
                       gone: seq<bool>, queue: seq<CRef>)

  // ---------------------------------------------------------------- meaning

  /** An assignment satisfies the remaining clauses and the level-0 facts. */
  ghost predicate Models(a: Model, s: Simp) {
    && (forall cr :: Problem(s.ca, cr) ==> SatClause(a, s.ca[cr].lits))
    && (forall p :: p in s.trail ==> Holds(a, p))
  }

  ghost predicate SameModels(s: Simp, t: Simp) {
    forall a: Model :: Models(a, s) <==> Models(a, t)
  }

  ghost predicate NoModel(s: Simp) {
    forall a: Model :: !Models(a, s)
  }

  lemma SameModelsReflexive(s: Simp)
    ensures SameModels(s, s)
  {
  }

  lemma SameModelsTransitive(s: Simp, t: Simp, u: Simp)
    requires SameModels(s, t) && SameModels(t, u)
    ensures SameModels(s, u)
  {
  }

  lemma NoModelSame(s: Simp, t: Simp)
    requires SameModels(s, t) && NoModel(t)
    ensures NoModel(s)
  {
  }

  // ---------------------------------------------------------------- shape

  ghost predicate ClauseFit(c: SClause, n: nat, gone: seq<bool>, leaving: set<Var>) {
    && |c.lits| >= 2 && NoPair(c.lits) && c.abs == Abstraction(c.lits) && c.mark == 0
    && forall p :: p in c.lits ==> p.v < n && (p.v < |gone| && gone[p.v] ==> p.v in leaving)
  }

  /** Remaining clauses are well formed and mention eliminated variables only while those are leaving. */
  ghost predicate ClausesFit(ca: Pool, n: nat, gone: seq<bool>, leaving: set<Var>) {
    && (forall cr :: Problem(ca, cr) ==> ClauseFit(ca[cr], n, gone, leaving))
    && (forall cr :: 0 <= cr < |ca| ==> ca[cr].mark <= 1)
  }

  ghost predicate TrailFits(assigns: seq<LBool>, trail: seq<Lit>) {
    && (forall p :: p in trail ==> IsTrue(assigns, p))
    && (forall v :: 0 <= v < |assigns| && assigns[v] != Undef ==> Lit(v, assigns[v] == False) in trail)
  }

  ghost predicate Distinct(cs: seq<CRef>) {
    forall i, j :: 0 <= i < j < |cs| ==> cs[i] != cs[j]
  }

  predicate OccursOk(ca: Pool, v: Var, cr: CRef, dirty: bool) {
    0 < cr < |ca| && if ca[cr].mark != 1 then v in VarsOf(ca[cr].lits) else dirty
  }

  /** The list of v holds clauses mentioning v, each once; deleted ones only if the list is marked dirty. */
  ghost predicate OccursSound(ca: Pool, occurs: seq<seq<CRef>>, dirty: seq<bool>) {
    && |dirty| == |occurs|
    && (forall v :: 0 <= v < |occurs| ==> Distinct(occurs[v]))
    && forall v, cr :: 0 <= v < |occurs| && cr in occurs[v] ==> OccursOk(ca, v, cr, dirty[v])
  }

  /** Every remaining clause is in the list of each of its variables. */
  ghost predicate OccursComplete(ca: Pool, occurs: seq<seq<CRef>>) {
    forall cr, p :: Problem(ca, cr) && p in ca[cr].lits && p.v < |occurs| ==> cr in occurs[p.v]
  }

  ghost predicate ScratchFits(ca: Pool, trail: seq<Lit>, queue: seq<CRef>) {
    && |ca| > 0 && ca[TMP].mark == 0 && |ca[TMP].lits| == 1 && ca[TMP].abs == Abstraction(ca[TMP].lits)
    && (TMP in queue ==> ca[TMP].lits[0] in trail)
  }

  ghost predicate QueueFits(ca: Pool, queue: seq<CRef>) {
    forall cr :: cr in queue ==> 0 <= cr < |ca|
  }

  ghost predicate Shape(s: Simp, leaving: set<Var>) {
    && |s.gone| == |s.assigns|
    && ClausesFit(s.ca, |s.assigns|, s.gone, leaving)
    && TrailFits(s.assigns, s.trail)
    && OccursSound(s.ca, s.occurs, s.dirty) && OccursComplete(s.ca, s.occurs)
    && ScratchFits(s.ca, s.trail, s.queue) && QueueFits(s.ca, s.queue)
  }

  // ---------------------------------------------------------------- reordering literals

  /** The same clauses with their literals possibly in another order. */
  ghost predicate Shuffled(ca: Pool, cb: Pool) {
    && |ca| == |cb|
    && (|ca| > 0 ==> cb[TMP] == ca[TMP])
    && forall cr :: 0 <= cr < |ca| ==>
         cb[cr].mark == ca[cr].mark && cb[cr].abs == ca[cr].abs && SameLits(ca[cr].lits, cb[cr].lits)
  }

  lemma ShuffledReflexive(ca: Pool)
    ensures Shuffled(ca, ca)
  {
  }

  lemma ShuffledTransitive(ca: Pool, cb: Pool, cc: Pool)
    requires Shuffled(ca, cb) && Shuffled(cb, cc)
    ensures Shuffled(ca, cc)
  {
  }

  lemma SameLitsSat(a: Model, c: seq<Lit>, d: seq<Lit>)
    requires SameLits(c, d)
    ensures SatClause(a, c) <==> SatClause(a, d)
  {
  }

  lemma ShuffledModels(s: Simp, t: Simp)
    requires Shuffled(s.ca, t.ca) && s.trail == t.trail
    ensures SameModels(s, t)
  {
    forall a: Model ensures Models(a, s) <==> Models(a, t) {
      forall cr | Problem(s.ca, cr) || Problem(t.ca, cr)
        ensures Problem(s.ca, cr) && Problem(t.ca, cr)
        ensures SatClause(a, s.ca[cr].lits) <==> SatClause(a, t.ca[cr].lits)
      {
        SameLitsSat(a, s.ca[cr].lits, t.ca[cr].lits);
      }
    }
  }

  function Permuted(ca: Pool, cr: CRef, i: nat, j: nat): Pool
    requires 0 <= cr < |ca| && i < |ca[cr].lits| && j < |ca[cr].lits|
  {
    ca[cr := ca[cr].(lits := Swap(ca[cr].lits, i, j))]
  }

  lemma SwapNoPair(c: seq<Lit>, i: nat, j: nat)
    requires NoPair(c) && i < |c| && j < |c|
    ensures NoPair(Swap(c, i, j))
  {
  }

  lemma ShuffledVars(c: SClause, d: SClause)
    requires SameLits(c.lits, d.lits)
    ensures VarsOf(c.lits) == VarsOf(d.lits)
  {
  }

  lemma ShuffledClauses(ca: Pool, cb: Pool, n: nat, gone: seq<bool>, leaving: set<Var>)
    requires ClausesFit(ca, n, gone, leaving) && Shuffled(ca, cb)
    requires forall cr :: Problem(cb, cr) ==> NoPair(cb[cr].lits)
    ensures ClausesFit(cb, n, gone, leaving)
  {
    forall cr | Problem(cb, cr) ensures ClauseFit(cb[cr], n, gone, leaving) {
      assert Problem(ca, cr);
      AbstractionSame(ca[cr].lits, cb[cr].lits);
    }
  }

  lemma ShuffledOccurs(ca: Pool, cb: Pool, occurs: seq<seq<CRef>>, dirty: seq<bool>)
    requires OccursSound(ca, occurs, dirty) && OccursComplete(ca, occurs) && Shuffled(ca, cb)
    ensures OccursSound(cb, occurs, dirty) && OccursComplete(cb, occurs)
  {
    forall v, cr | 0 <= v < |occurs| && cr in occurs[v] ensures OccursOk(cb, v, cr, dirty[v]) {
      assert OccursOk(ca, v, cr, dirty[v]);
      ShuffledVars(ca[cr], cb[cr]);
    }
    forall x, p | Problem(cb, x) && p in cb[x].lits && p.v < |occurs| ensures x in occurs[p.v] {
      assert Problem(ca, x) && p in ca[x].lits;
    }
  }

  lemma PermuteKeeps(s: Simp, cr: CRef, i: nat, j: nat, leaving: set<Var>)
    requires Shape(s, leaving) && Problem(s.ca, cr) && i < |s.ca[cr].lits| && j < |s.ca[cr].lits|
    ensures var t := s.(ca := Permuted(s.ca, cr, i, j));
            Shape(t, leaving) && Shuffled(s.ca, t.ca) && SameModels(s, t)
  {
    hide OccursSound, OccursComplete, TrailFits, SameModels;
    var c := s.ca[cr].lits;
    var t := s.(ca := Permuted(s.ca, cr, i, j));
    SwapSame(c, i, j);
    SwapNoPair(c, i, j);
    assert Shuffled(s.ca, t.ca);
    forall x | Problem(t.ca, x) ensures NoPair(t.ca[x].lits) {
      assert Problem(s.ca, x) && ClauseFit(s.ca[x], |s.assigns|, s.gone, leaving);
    }
    ShuffledModels(s, t);
    ShuffledClauses(s.ca, t.ca, |s.assigns|, s.gone, leaving);
    ShuffledOccurs(s.ca, t.ca, s.occurs, s.dirty);
  }

  // ---------------------------------------------------------------- level-0 facts

  function WithFact(s: Simp, p: Lit): Simp
    requires p.v < |s.assigns|
  {
    s.(assigns := s.assigns[p.v := if p.neg then False else True], trail := s.trail + [p])
  }

  lemma FactKeeps(s: Simp, p: Lit, leaving: set<Var>)
    requires Shape(s, leaving) && IsUndef(s.assigns, p)
    ensures Shape(WithFact(s, p), leaving)
  {
    var t := WithFact(s, p);
    forall v | 0 <= v < |t.assigns| && t.assigns[v] != Undef ensures Lit(v, t.assigns[v] == False) in t.trail {
      if v == p.v {
        assert Lit(v, t.assigns[v] == False) == p;
      }
    }
  }

  /** A fact that follows from the rest changes nothing. */
  lemma FactModels(s: Simp, p: Lit)
    requires p.v < |s.assigns| && forall a: Model :: Models(a, s) ==> Holds(a, p)
    ensures SameModels(s, WithFact(s, p))
  {
    forall a: Model ensures Models(a, s) <==> Models(a, WithFact(s, p)) {
      if Models(a, WithFact(s, p)) {
        forall q | q in s.trail ensures Holds(a, q) {
          assert q in WithFact(s, p).trail;
        }
      }
    }
  }

  lemma FalseFails(a: Model, s: Simp, p: Lit)
    requires TrailFits(s.assigns, s.trail) && Models(a, s) && IsFalse(s.assigns, p)
    ensures !Holds(a, p)
  {
    assert Neg(p) == Lit(p.v, s.assigns[p.v] == False);
    assert Holds(a, Neg(p));
  }

  lemma TrueHolds(a: Model, s: Simp, p: Lit)
    requires TrailFits(s.assigns, s.trail) && Models(a, s) && IsTrue(s.assigns, p)
    ensures Holds(a, p)
  {
    assert p == Lit(p.v, s.assigns[p.v] == False);
  }

  /** All literals but the k-th are false. */
  ghost predicate UnitAt(c: seq<Lit>, assigns: seq<LBool>, k: nat) {
    k < |c| && forall i :: 0 <= i < |c| && i != k ==> IsFalse(assigns, c[i])
  }

  lemma UnitHolds(s: Simp, c: seq<Lit>, k: nat)
    requires TrailFits(s.assigns, s.trail) && UnitAt(c, s.assigns, k)
    ensures forall a: Model :: Models(a, s) && SatClause(a, c) ==> Holds(a, c[k])
  {
    forall a: Model | Models(a, s) && SatClause(a, c) ensures Holds(a, c[k]) {
      var p :| p in c && Holds(a, p);
      var i :| 0 <= i < |c| && c[i] == p;
      if i != k {
        FalseFails(a, s, p);
      }
    }
  }

  lemma AllFalseFails(s: Simp, c: seq<Lit>)
    requires TrailFits(s.assigns, s.trail) && forall p :: p in c ==> IsFalse(s.assigns, p)
    ensures forall a: Model :: Models(a, s) ==> !SatClause(a, c)
  {
    forall a: Model | Models(a, s) ensures !SatClause(a, c) {
      forall p | p in c ensures !Holds(a, p) {
        FalseFails(a, s, p);
      }
    }
  }

  lemma AllFalseConflict(s: Simp, cr: CRef)
    requires TrailFits(s.assigns, s.trail) && Problem(s.ca, cr)
    requires forall m :: 0 <= m < |s.ca[cr].lits| ==> IsFalse(s.assigns, s.ca[cr].lits[m])
    ensures NoModel(s)
  {
    AllFalseFails(s, s.ca[cr].lits);
  }

  lemma UnitFollows(s: Simp, cr: CRef, k: nat)
    requires TrailFits(s.assigns, s.trail) && Problem(s.ca, cr) && UnitAt(s.ca[cr].lits, s.assigns, k)
    ensures forall a: Model :: Models(a, s) ==> Holds(a, s.ca[cr].lits[k])
  {
    UnitHolds(s, s.ca[cr].lits, k);
  }

  lemma WithFactModels(s: Simp, p: Lit)
    requires p.v < |s.assigns|
    ensures forall a: Model :: Models(a, WithFact(s, p)) <==> Models(a, s) && Holds(a, p)
  {
    var t := WithFact(s, p);
    forall a: Model ensures Models(a, t) <==> Models(a, s) && Holds(a, p) {
      assert forall q :: q in t.trail <==> q in s.trail || q == p;
    }
  }

  lemma QueueKeeps(s: Simp, queue: seq<CRef>, leaving: set<Var>)
    requires Shape(s, leaving)
    requires forall cr :: cr in queue ==> cr in s.queue || 0 < cr < |s.ca|
    ensures Shape(s.(queue := queue), leaving) && SameModels(s, s.(queue := queue))
  {
  }

  lemma FitVar(s: Simp, cr: CRef, p: Lit, leaving: set<Var>)
    requires Shape(s, leaving) && Problem(s.ca, cr) && p in s.ca[cr].lits
    ensures p.v < |s.assigns| && ClauseFit(s.ca[cr], |s.assigns|, s.gone, leaving)
  {
  }

  lemma UnitClauseHolds(s: Simp, c: seq<Lit>)
    requires |c| == 1 && forall a: Model :: Models(a, s) ==> SatClause(a, c)
    ensures forall a: Model :: Models(a, s) ==> Holds(a, c[0])
  {
  }

  /** Every other problem clause is still there with the same literals. */
  ghost predicate Others(ca: Pool, cb: Pool, cr: CRef) {
    && |ca| == |cb| && (|ca| > 0 ==> cb[TMP] == ca[TMP])
    && (forall x :: Problem(ca, x) && x != cr ==> Problem(cb, x) && SameLits(ca[x].lits, cb[x].lits))
    && forall x :: Problem(cb, x) ==> Problem(ca, x)
  }

  lemma OthersUpdate(ca: Pool, cr: CRef, c: SClause)
    requires Problem(ca, cr)
    ensures Others(ca, ca[cr := c], cr)
  {
  }

  lemma OthersSelf(ca: Pool, cr: CRef)
    ensures Others(ca, ca, cr)
  {
  }

  lemma OthersShuffled(ca: Pool, cb: Pool, cc: Pool, cr: CRef)
    requires Others(ca, cb, cr) && Shuffled(cb, cc)
    ensures Others(ca, cc, cr)
  {
  }

  // ---------------------------------------------------------------- deleting

  function Deleted(ca: Pool, cr: CRef): Pool
    requires 0 <= cr < |ca|
  {
    ca[cr := ca[cr].(mark := 1)]
  }

  lemma DeleteKeeps(s: Simp, cr: CRef, dirty: seq<bool>, leaving: set<Var>)
    requires Shape(s, leaving) && Problem(s.ca, cr) && |dirty| == |s.dirty|
    requires forall v :: 0 <= v < |dirty| && (s.dirty[v] || v in VarsOf(s.ca[cr].lits)) ==> dirty[v]
    ensures Shape(s.(ca := Deleted(s.ca, cr), dirty := dirty), leaving)
  {
    var t := s.(ca := Deleted(s.ca, cr), dirty := dirty);
    forall x | Problem(t.ca, x) ensures Problem(s.ca, x) && t.ca[x] == s.ca[x] {
    }
  }

  /** A clause that follows from the remaining ones may be deleted. */
  lemma DeleteModels(s: Simp, t: Simp, cr: CRef)
    requires Problem(s.ca, cr) && t.ca == Deleted(s.ca, cr) && t.trail == s.trail
    requires forall a: Model :: Models(a, t) ==> SatClause(a, s.ca[cr].lits)
    ensures SameModels(s, t)
  {
    forall a: Model ensures Models(a, s) <==> Models(a, t) {
      forall x | Problem(t.ca, x) ensures Problem(s.ca, x) && t.ca[x] == s.ca[x] {
      }
      forall x | Problem(s.ca, x) && x != cr ensures Problem(t.ca, x) && t.ca[x] == s.ca[x] {
      }
    }
  }

  /** What a deleted clause still holds is irrelevant. */
  lemma DeadKeeps(s: Simp, cr: CRef, c: SClause, leaving: set<Var>)
    requires Shape(s, leaving) && 0 < cr < |s.ca| && s.ca[cr].mark == 1 && c.mark == 1
    ensures var t := s.(ca := s.ca[cr := c]); Shape(t, leaving) && SameModels(s, t)
  {
    var t := s.(ca := s.ca[cr := c]);
    forall x ensures Problem(s.ca, x) <==> Problem(t.ca, x) {
    }
    forall v, x | 0 <= v < |t.occurs| && x in t.occurs[v] ensures OccursOk(t.ca, v, x, t.dirty[v]) {
      assert OccursOk(s.ca, v, x, s.dirty[v]);
    }
  }

  /** A clause containing a literal that holds anyway may give way to that literal. */
  lemma UnitReplaces(s: Simp, t: Simp, cr: CRef, p: Lit)
    requires Problem(s.ca, cr) && t.ca == Deleted(s.ca, cr) && t.trail == s.trail && p in s.ca[cr].lits
    requires forall a: Model :: Models(a, s) ==> Holds(a, p)
    ensures forall a: Model :: Models(a, s) <==> Models(a, t) && Holds(a, p)
  {
    forall x ensures Problem(s.ca, x) <==> x == cr || (Problem(t.ca, x) && t.ca[x] == s.ca[x]) {
    }
    forall a: Model ensures Models(a, s) <==> Models(a, t) && Holds(a, p) {
      if Models(a, t) && Holds(a, p) {
        assert SatClause(a, s.ca[cr].lits);
      }
    }
  }

  // ---------------------------------------------------------------- strengthening

  function Strengthened(ca: Pool, cr: CRef, l: Lit): Pool
    requires 0 <= cr < |ca|
  {
    var c := Erased(ca[cr].lits, l);
    ca[cr := ca[cr].(lits := c, abs := Abstraction(c))]
  }

  lemma {:induction false} ErasedRef(cs: seq<CRef>, x: CRef)
    requires Distinct(cs)
    ensures Distinct(Erased(cs, x)) && forall y :: y in Erased(cs, x) <==> y in cs && y != x
  {
    if cs != [] {
      var tail := cs[1..];
      assert cs == [cs[0]] + tail && cs[0] !in tail;
      if cs[0] != x {
        ErasedRef(tail, x);
        assert cs[0] !in Erased(tail, x);
        DistinctCons(cs[0], Erased(tail, x));
        assert Erased(cs, x) == [cs[0]] + Erased(tail, x);
      }
    }
  }

  lemma DistinctCons(x: CRef, cs: seq<CRef>)
    requires Distinct(cs) && x !in cs
    ensures Distinct([x] + cs)
  {
  }

  lemma StrengthenKeeps(s: Simp, cr: CRef, l: Lit, leaving: set<Var>)
    requires Shape(s, leaving) && Problem(s.ca, cr) && l in s.ca[cr].lits && |s.ca[cr].lits| > 2
    requires |s.occurs| == |s.assigns|
    ensures l.v < |s.occurs|
    ensures Shape(s.(ca := Strengthened(s.ca, cr, l), occurs := s.occurs[l.v := Erased(s.occurs[l.v], cr)]), leaving)
  {
    var c, d := s.ca[cr].lits, Erased(s.ca[cr].lits, l);
    ErasedMember(c, l);
    ErasedNoPair(c, l);
    ErasedRef(s.occurs[l.v], cr);
    var t := s.(ca := Strengthened(s.ca, cr, l), occurs := s.occurs[l.v := Erased(s.occurs[l.v], cr)]);
    forall x | Problem(t.ca, x) ensures Problem(s.ca, x) {
    }
    assert ClausesFit(t.ca, |t.assigns|, t.gone, leaving);
    forall x, p | Problem(t.ca, x) && p in t.ca[x].lits && p.v < |t.occurs| ensures x in t.occurs[p.v] {
      assert p in s.ca[x].lits && x in s.occurs[p.v];
      if x == cr && p.v == l.v {
        OneLit(c, p, l);
      }
    }
    forall v, x | 0 <= v < |t.occurs| && x in t.occurs[v]
      ensures OccursOk(t.ca, v, x, t.dirty[v])
    {
      assert x in s.occurs[v];
      if x == cr {
        assert v != l.v;
        var p :| p in c && p.v == v;
        assert p in d;
        assert v in VarsOf(d);
      }
    }
  }

  /** Removing a literal that the rest shows superfluous changes nothing. */
  lemma StrengthenModels(s: Simp, t: Simp, cr: CRef, l: Lit)
    requires Problem(s.ca, cr) && t.ca == Strengthened(s.ca, cr, l) && t.trail == s.trail
    requires forall a: Model :: Models(a, s) ==> SatClause(a, Erased(s.ca[cr].lits, l))
    ensures SameModels(s, t)
  {
    ErasedMember(s.ca[cr].lits, l);
    forall x ensures Problem(s.ca, x) <==> Problem(t.ca, x) {
    }
    forall a: Model ensures Models(a, s) <==> Models(a, t) {
      if Models(a, t) {
        assert Problem(t.ca, cr);
        var p :| p in t.ca[cr].lits && Holds(a, p);
        assert p in s.ca[cr].lits;
      }
    }
  }

  // ---------------------------------------------------------------- marking queued clauses

  /** Exactly the undeleted clauses in queue carry the mark 2. */
  ghost predicate Marked(ca0: Pool, ca: Pool, queue: seq<CRef>) {
    && |ca| == |ca0|
    && forall x :: 0 <= x < |ca| ==>
         ca[x] == if ca0[x].mark == 0 && x in queue then ca0[x].(mark := 2) else ca0[x]
  }

  /** Marks other than 1 do not matter to the occurrence lists. */
  lemma MarkedOccurs(ca0: Pool, ca: Pool, queue: seq<CRef>, occurs: seq<seq<CRef>>, dirty: seq<bool>)
    requires Marked(ca0, ca, queue)
    ensures OccursSound(ca0, occurs, dirty) <==> OccursSound(ca, occurs, dirty)
    ensures OccursComplete(ca0, occurs) <==> OccursComplete(ca, occurs)
  {
    forall v: Var, x: CRef, d: bool ensures OccursOk(ca0, v, x, d) <==> OccursOk(ca, v, x, d) {
    }
    forall x ensures Problem(ca0, x) <==> Problem(ca, x) {
    }
  }

  lemma MarkedStep(ca0: Pool, ca: Pool, queue: seq<CRef>, cr: CRef)
    requires Marked(ca0, ca, queue) && 0 <= cr < |ca|
    ensures if ca[cr].mark == 0 then Marked(ca0, ca[cr := ca[cr].(mark := 2)], queue + [cr])
            else Marked(ca0, ca, queue + [cr])
  {
  }

  /** After a list has been cleaned it holds exactly the remaining clauses that mention the variable. */
  lemma ListMembers(ca0: Pool, ca: Pool, queue: seq<CRef>, occurs: seq<seq<CRef>>, dirty: seq<bool>, v: Var)
    requires Marked(ca0, ca, queue) && OccursComplete(ca, occurs) && v < |occurs|
    requires forall cr :: cr in occurs[v] ==> Problem(ca, cr)
    ensures forall cr :: cr in occurs[v] ==> Problem(ca0, cr)
    ensures forall cr, p :: Problem(ca0, cr) && p in ca0[cr].lits && p.v == v ==> cr in occurs[v]
  {
    forall cr, p | Problem(ca0, cr) && p in ca0[cr].lits && p.v == v ensures cr in occurs[v] {
      assert Problem(ca, cr) && p in ca[cr].lits;
    }
  }

  lemma ListedProblem(s: Simp, v: Var, cr: CRef, leaving: set<Var>)
    requires Shape(s, leaving) && v < |s.occurs| && cr in s.occurs[v]
    ensures 0 < cr < |s.ca| && (s.ca[cr].mark == 0 ==> Problem(s.ca, cr)) && s.ca[cr].mark <= 1
  {
    assert OccursOk(s.ca, v, cr, s.dirty[v]);
  }

  lemma ScratchKeeps(s: Simp, l: Lit)
    requires Shape(s, {}) && s.queue == [] && l in s.trail
    ensures var t := s.(ca := s.ca[TMP := SClause([l], 0, Abstraction([l]))], queue := [TMP]);
            Shape(t, {}) && SameModels(s, t)
  {
    var t := s.(ca := s.ca[TMP := SClause([l], 0, Abstraction([l]))], queue := [TMP]);
    forall x ensures Problem(s.ca, x) <==> Problem(t.ca, x) {
    }
    forall v, x | 0 <= v < |t.occurs| && x in t.occurs[v] ensures OccursOk(t.ca, v, x, t.dirty[v]) {
      assert OccursOk(s.ca, v, x, s.dirty[v]);
    }
  }

  lemma QueueHead(s: Simp)
    requires ScratchFits(s.ca, s.trail, s.queue) && QueueFits(s.ca, s.queue) && |s.queue| > 0
    ensures 0 <= s.queue[0] < |s.ca| && (s.queue[0] == TMP ==> s.ca[TMP].lits[0] in s.trail)
  {
    assert s.queue[0] in s.queue;
  }

  lemma SameClauses(s: Simp, t: Simp)
    requires s.ca == t.ca && s.trail == t.trail
    ensures SameModels(s, t)
  {
  }

  // ---------------------------------------------------------------- subsuming

  /** The clause being checked against the others, or the fact in the scratch unit, holds. */
  lemma SubsumerHolds(s: Simp, cr: CRef, a: Model)
    requires 0 <= cr < |s.ca| && s.ca[cr].mark != 1 && Models(a, s)
    requires cr == TMP ==> |s.ca[TMP].lits| == 1 && s.ca[TMP].lits[0] in s.trail
    ensures SatClause(a, s.ca[cr].lits)
  {
    if cr == TMP {
      assert s.ca[TMP].lits[0] in s.ca[TMP].lits;
    } else {
      assert Problem(s.ca, cr);
    }
  }

  /** A subsumed clause may go. */
  lemma SubsumedModels(s: Simp, t: Simp, cr: CRef, d: CRef)
    requires 0 <= cr < |s.ca| && s.ca[cr].mark != 1 && Problem(s.ca, d) && d != cr
    requires cr == TMP ==> |s.ca[TMP].lits| == 1 && s.ca[TMP].lits[0] in s.trail
    requires Relates(s.ca[cr].lits, s.ca[d].lits, Subsumed)
    requires t.ca == Deleted(s.ca, d) && t.trail == s.trail
    ensures SameModels(s, t)
  {
    forall a: Model | Models(a, t) ensures SatClause(a, s.ca[d].lits) {
      SubsumerHolds(t, cr, a);
      var p :| p in s.ca[cr].lits && Holds(a, p);
      assert p in s.ca[d].lits;
    }
    DeleteModels(s, t, d);
  }

  /** A literal that can be resolved away is superfluous. */
  lemma ResolvedAway(s: Simp, cr: CRef, d: CRef, x: Lit)
    requires 0 <= cr < |s.ca| && s.ca[cr].mark != 1 && Problem(s.ca, d) && NoPair(s.ca[cr].lits)
    requires cr == TMP ==> |s.ca[TMP].lits| == 1 && s.ca[TMP].lits[0] in s.trail
    requires Relates(s.ca[cr].lits, s.ca[d].lits, ResolveOn(x))
    ensures Neg(x) in s.ca[d].lits
    ensures forall a: Model :: Models(a, s) ==> SatClause(a, Erased(s.ca[d].lits, Neg(x)))
  {
    forall a: Model | Models(a, s) ensures SatClause(a, Erased(s.ca[d].lits, Neg(x))) {
      SubsumerHolds(s, cr, a);
      ResolveOnHolds(a, s.ca[cr].lits, s.ca[d].lits, x);
    }
  }

  /** The clause at cr can be compared with the others. */
  ghost predicate Comparable(s: Simp, cr: CRef) {
    && 0 <= cr < |s.ca| && s.ca[cr].mark != 1 && NoPair(s.ca[cr].lits) && s.ca[cr].abs == Abstraction(s.ca[cr].lits)
    && (cr == TMP ==> |s.ca[TMP].lits| == 1 && s.ca[TMP].lits[0] in s.trail)
  }

  lemma ComparableFit(s: Simp, cr: CRef, leaving: set<Var>)
    requires Shape(s, leaving) && 0 <= cr < |s.ca| && s.ca[cr].mark != 1
    requires cr == TMP ==> s.ca[TMP].lits[0] in s.trail
    ensures Comparable(s, cr)
    ensures forall p :: p in s.ca[cr].lits ==> p.v < |s.assigns|
  {
    if cr == TMP {
      assert IsTrue(s.assigns, s.ca[TMP].lits[0]);
    } else {
      assert Problem(s.ca, cr);
    }
  }

  /** The clause at cr neither subsumes the one at d nor resolves a literal out of it, or d is gone or too long. */
  ghost predicate Settled(ca: Pool, cr: CRef, d: CRef, lim: int) {
    && 0 <= cr < |ca|
    && (d == cr || !Problem(ca, d) || (lim != -1 && |ca[d].lits| >= lim)
        || Relates(ca[cr].lits, ca[d].lits, Unrelated))
  }

  lemma RelatesSame(c: seq<Lit>, d: seq<Lit>, c': seq<Lit>, d': seq<Lit>)
    requires Relates(c, d, Unrelated) && SameLits(c, c') && SameLits(d, d')
    ensures Relates(c', d', Unrelated)
  {
    forall x | x in c' && Neg(x) in d' ensures !InBut(c', d', x) {
      assert x in c && Neg(x) in d;
      var k :| 0 <= k < |c| && c[k] != x && c[k] !in d;
      assert c[k] in c';
    }
  }

  /** What is settled stays settled while other clauses are deleted or shortened. */
  lemma SettledOthers(ca: Pool, cb: Pool, cr: CRef, d: CRef, lim: int, changed: CRef)
    requires Settled(ca, cr, d, lim) && Others(ca, cb, changed) && d != changed && cr != changed
    requires cr == TMP || Problem(ca, cr)
    ensures Settled(cb, cr, d, lim)
  {
    if Problem(cb, d) && d != cr {
      assert Problem(ca, d);
      if Relates(ca[cr].lits, ca[d].lits, Unrelated) {
        RelatesSame(ca[cr].lits, ca[d].lits, cb[cr].lits, cb[d].lits);
      }
    }
  }

  /** With the literal resolved away, the two clauses are unrelated. */
  lemma ResolvedUnrelated(c: seq<Lit>, d: seq<Lit>, x: Lit)
    requires NoPair(d) && Relates(c, d, ResolveOn(x))
    ensures Relates(c, Erased(d, Neg(x)), Unrelated)
  {
    var e := Erased(d, Neg(x));
    ErasedMember(d, Neg(x));
    ErasedNoPair(d, Neg(x));
    assert Neg(x) !in e;
    assert x !in e by {
      if x in d {
        OneLit(d, x, Neg(x));
      }
    }
    forall y | y in c && Neg(y) in e ensures !InBut(c, e, y) {
      assert y != x;
      var k :| 0 <= k < |c| && c[k] == x;
    }
  }

  /** A clause without one of c's variables is unrelated to c. */
  lemma MissingVar(c: seq<Lit>, d: seq<Lit>, v: Var)
    requires v in VarsOf(c) && v !in VarsOf(d)
    ensures Relates(c, d, Unrelated)
  {
    var p :| p in c && p.v == v;
    assert p !in d && Neg(p).v == v && Neg(p) !in d;
    forall x | x in c && Neg(x) in d ensures !InBut(c, d, x) {
      var k :| 0 <= k < |c| && c[k] == p;
      assert x != p;
    }
  }

  /** The first j clauses of the list are settled. */
  ghost predicate SettledTo(ca: Pool, cr: CRef, list: seq<CRef>, j: int, lim: int) {
    forall k :: 0 <= k < j && k < |list| ==> Settled(ca, cr, list[k], lim)
  }

  lemma SameLitsReflexive(c: seq<Lit>)
    ensures SameLits(c, c)
  {
  }

  lemma SameVars(c: seq<Lit>, d: seq<Lit>, v: Var)
    requires SameLits(c, d) && v in VarsOf(c)
    ensures v in VarsOf(d)
  {
  }

  /** The scanned clause itself is untouched but for the order of its literals. */
  lemma ScannedKept(s: Simp, t: Simp, cr: CRef, d: CRef, c: seq<Lit>)
    requires Comparable(s, cr) && Comparable(t, cr) && Others(s.ca, t.ca, d) && d != cr && SameLits(c, s.ca[cr].lits)
    requires s.ca[cr].mark == 0 && Shape(t, {})
    ensures 0 <= cr < |t.ca| && t.ca[cr].mark == 0 && SameLits(c, t.ca[cr].lits)
  {
    if cr != TMP {
      assert Problem(s.ca, cr);
    }
  }

  lemma SettledNothing(ca: Pool, cr: CRef, list: seq<CRef>, lim: int)
    ensures SettledTo(ca, cr, list, 0, lim)
  {
  }

  /** The candidate at position j has just been checked; if its list lost it, position j is next again. */
  lemma SettledStep(s: Simp, t: Simp, cr: CRef, best: Var, j: nat, lim: int, r: Subsumption, leaving: set<Var>)
    requires Shape(s, leaving) && Comparable(s, cr) && best < |s.occurs| && j < |s.occurs[best]|
    requires var d := s.occurs[best][j];
             && d != cr && Others(s.ca, t.ca, d) && Settled(t.ca, cr, d, -1)
             && (t.occurs == s.occurs || (r.ResolveOn? && r.p.v < |s.occurs|
                                          && t.occurs == s.occurs[r.p.v := Erased(s.occurs[r.p.v], d)]))
    requires SettledTo(s.ca, cr, s.occurs[best], j, lim)
    ensures best < |t.occurs| && (if r.ResolveOn? && r.p.v == best then j else j + 1) <= |t.occurs[best]|
    ensures SettledTo(t.ca, cr, t.occurs[best], if r.ResolveOn? && r.p.v == best then j else j + 1, lim)
  {
    hide Relates;
    var list, d := s.occurs[best], s.occurs[best][j];
    ErasedAt(list, j);
    forall k | 0 <= k < j ensures Settled(t.ca, cr, list[k], lim) && t.occurs[best][k] == list[k] {
      SettledOthers(s.ca, t.ca, cr, list[k], lim, d);
    }
  }

  lemma SettledSkip(ca: Pool, cr: CRef, list: seq<CRef>, j: nat, lim: int)
    requires SettledTo(ca, cr, list, j, lim) && j < |list| && 0 <= cr < |ca|
    requires 0 < list[j] < |ca| && ca[list[j]].mark <= 1
    requires !(ca[list[j]].mark == 0 && list[j] != cr && (lim == -1 || |ca[list[j]].lits| < lim))
    ensures SettledTo(ca, cr, list, j + 1, lim)
  {
  }

  /** When a whole list is settled, so is every clause: the others lack the variable. */
  lemma SettledAll(s: Simp, cr: CRef, best: Var, lim: int, leaving: set<Var>)
    requires Shape(s, leaving) && Comparable(s, cr) && best < |s.occurs| && best in VarsOf(s.ca[cr].lits)
    requires SettledTo(s.ca, cr, s.occurs[best], |s.occurs[best]|, lim)
    ensures forall d :: Problem(s.ca, d) ==> Settled(s.ca, cr, d, lim)
  {
    forall d | Problem(s.ca, d) ensures Settled(s.ca, cr, d, lim) {
      if best in VarsOf(s.ca[d].lits) {
        var p :| p in s.ca[d].lits && p.v == best;
        assert d in s.occurs[best];
      } else {
        MissingVar(s.ca[cr].lits, s.ca[d].lits, best);
      }
    }
  }

  lemma {:induction false} ErasedAt(cs: seq<CRef>, j: nat)
    requires Distinct(cs) && j < |cs|
    ensures Erased(cs, cs[j]) == cs[..j] + cs[j + 1..]
  {
    if j > 0 {
      ErasedAt(cs[1..], j - 1);
      assert cs[1..][j - 1] == cs[j];
    }
  }

  lemma MarkBound(s: Simp, cr: CRef, leaving: set<Var>)
    requires Shape(s, leaving) && 0 <= cr < |s.ca|
    ensures s.ca[cr].mark <= 1
  {
  }

  lemma ComparableRange(s: Simp, cr: CRef)
    requires Comparable(s, cr)
    ensures 0 <= cr < |s.ca|
  {
  }

  lemma ComparableOthers(s: Simp, t: Simp, cr: CRef, d: CRef, leaving: set<Var>)
    requires Comparable(s, cr) && Others(s.ca, t.ca, d) && d != cr && s.trail <= t.trail && Shape(t, leaving)
    ensures Comparable(t, cr)
  {
    if cr != TMP {
      assert Problem(s.ca, cr);
      assert Problem(t.ca, cr);
    }
  }

  lemma DeletedOthers(ca: Pool, d: CRef)
    requires Problem(ca, d)
    ensures Others(ca, Deleted(ca, d), d)
  {
  }

  // ---------------------------------------------------------------- adding

  function Allocated(s: Simp, c: seq<Lit>, occurs: seq<seq<CRef>>, queue: seq<CRef>): Simp {
    s.(ca := s.ca + [SClause(c, 0, Abstraction(c))], occurs := occurs, queue := queue)
  }

  /** The occurrence lists with cr appended for each literal of c. */
  ghost predicate Listed(occurs0: seq<seq<CRef>>, occurs: seq<seq<CRef>>, c: seq<Lit>, cr: CRef) {
    && |occurs| == |occurs0|
    && forall v :: 0 <= v < |occurs| ==> occurs[v] == occurs0[v] + if v in VarsOf(c) then [cr] else []
  }

  lemma AllocKeeps(s: Simp, c: seq<Lit>, occurs: seq<seq<CRef>>, queue: seq<CRef>, leaving: set<Var>)
    requires Shape(s, leaving) && (queue == s.queue || queue == s.queue + [|s.ca|]) && |c| >= 2 && NoPair(c)
    requires Listed(s.occurs, occurs, c, |s.ca|)
    requires forall p :: p in c ==> p.v < |s.assigns| && !s.gone[p.v]
    ensures Shape(Allocated(s, c, occurs, queue), leaving)
  {
    var t := Allocated(s, c, occurs, queue);
    forall x | Problem(t.ca, x) ensures x == |s.ca| || (Problem(s.ca, x) && t.ca[x] == s.ca[x]) {
    }
    forall v | 0 <= v < |occurs| ensures Distinct(occurs[v]) {
      forall k | 0 <= k < |s.occurs[v]| ensures s.occurs[v][k] != |s.ca| {
        assert OccursOk(s.ca, v, s.occurs[v][k], s.dirty[v]);
      }
    }
    forall x, p | Problem(t.ca, x) && p in t.ca[x].lits && p.v < |t.occurs| ensures x in t.occurs[p.v] {
      if x == |s.ca| {
        assert p.v in VarsOf(c);
      }
    }
  }

  /** t has the clauses of s, reordered, and possibly more of them and more facts. */
  ghost predicate Grown(s: Simp, t: Simp) {
    && |s.ca| <= |t.ca| && s.trail <= t.trail
    && forall cr :: 0 <= cr < |s.ca| ==>
         t.ca[cr].mark == s.ca[cr].mark && t.ca[cr].abs == s.ca[cr].abs && SameLits(s.ca[cr].lits, t.ca[cr].lits)
  }

  lemma GrownTransitive(s: Simp, t: Simp, u: Simp)
    requires Grown(s, t) && Grown(t, u)
    ensures Grown(s, u)
  {
  }

  lemma GrownModels(s: Simp, t: Simp, a: Model)
    requires Grown(s, t) && Models(a, t)
    ensures Models(a, s)
  {
    forall cr | Problem(s.ca, cr) ensures SatClause(a, s.ca[cr].lits) {
      assert Problem(t.ca, cr);
      SameLitsSat(a, s.ca[cr].lits, t.ca[cr].lits);
    }
  }

  /** The facts and the clauses that do not mention v hold. */
  ghost predicate ModelsBut(a: Model, s: Simp, v: Var) {
    && (forall cr :: Problem(s.ca, cr) && v !in VarsOf(s.ca[cr].lits) ==> SatClause(a, s.ca[cr].lits))
    && (forall p :: p in s.trail ==> Holds(a, p))
  }

  lemma GrownModelsBut(s: Simp, t: Simp, a: Model, v: Var)
    requires Grown(s, t) && ModelsBut(a, t, v)
    ensures ModelsBut(a, s, v)
  {
    forall cr | Problem(s.ca, cr) && v !in VarsOf(s.ca[cr].lits) ensures SatClause(a, s.ca[cr].lits) {
      assert Problem(t.ca, cr);
      ShuffledVars(s.ca[cr], t.ca[cr]);
      SameLitsSat(a, s.ca[cr].lits, t.ca[cr].lits);
    }
  }

  /** Even without the clauses on a variable that c does not mention, c holds. */
  ghost predicate Secured(s: Simp, c: seq<Lit>) {
    forall a: Model, v :: v !in VarsOf(c) && ModelsBut(a, s, v) ==> SatClause(a, c)
  }

  lemma GrownSecured(s: Simp, t: Simp, c: seq<Lit>)
    requires Grown(s, t) && Secured(s, c)
    ensures Secured(t, c)
  {
    forall a: Model, v | v !in VarsOf(c) && ModelsBut(a, t, v) ensures SatClause(a, c) {
      GrownModelsBut(s, t, a, v);
    }
  }

  /** A clause with a literal among the level-0 facts is secured. */
  lemma SecuredByFact(s: Simp, c: seq<Lit>, p: Lit)
    requires p in c && p in s.trail
    ensures Secured(s, c)
  {
  }

  lemma SecuredTautology(s: Simp, c: seq<Lit>, p: Lit)
    requires p in c && Neg(p) in c
    ensures Secured(s, c)
  {
    forall a: Model ensures SatClause(a, c) {
      assert Holds(a, p) || Holds(a, Neg(p));
    }
  }

  lemma SecuredByClause(s: Simp, c: seq<Lit>, cr: CRef)
    requires Problem(s.ca, cr) && forall p :: p in s.ca[cr].lits ==> p in c
    ensures Secured(s, c)
  {
    forall a: Model, v | v !in VarsOf(c) && ModelsBut(a, s, v) ensures SatClause(a, c) {
      assert v !in VarsOf(s.ca[cr].lits);
      var p :| p in s.ca[cr].lits && Holds(a, p);
      assert p in c;
    }
  }

  lemma ShuffledGrown(s: Simp, t: Simp)
    requires Shuffled(s.ca, t.ca) && s.trail <= t.trail
    ensures Grown(s, t)
  {
  }

  lemma GrownReflexive(s: Simp)
    ensures Grown(s, s)
  {
  }

  lemma PoolSize(ca: Pool, cb: Pool)
    requires Shuffled(ca, cb)
    ensures |ca| == |cb|
  {
  }

  lemma OneLiteral(a: Model, p: Lit)
    ensures SatClause(a, [p]) <==> Holds(a, p)
  {
    assert p in [p];
  }

  lemma KeptVars(kept: seq<Lit>, ps: seq<Lit>)
    requires forall x :: x in kept ==> x in ps
    ensures VarsOf(kept) <= VarsOf(ps)
  {
  }

  /** Dropping literals that are false at level 0 loses nothing. */
  lemma KeptHolds(s: Simp, ps: seq<Lit>, kept: seq<Lit>)
    requires TrailFits(s.assigns, s.trail)
    requires forall x :: x in ps ==> x in kept || IsFalse(s.assigns, x)
    ensures forall a: Model :: Models(a, s) && SatClause(a, ps) ==> SatClause(a, kept)
  {
    forall a: Model | Models(a, s) && SatClause(a, ps) ensures SatClause(a, kept) {
      var x :| x in ps && Holds(a, x);
      if IsFalse(s.assigns, x) {
        FalseFails(a, s, x);
      }
    }
  }

  /** Allocating a clause grows the state, and the models become those that also satisfy the clause. */
  lemma AllocModels(s: Simp, t: Simp, c: seq<Lit>)
    requires t.ca == s.ca + [SClause(c, 0, Abstraction(c))] && t.trail == s.trail && |s.ca| > 0
    ensures Grown(s, t) && Problem(t.ca, |s.ca|)
    ensures forall a: Model :: Models(a, t) <==> Models(a, s) && SatClause(a, c)
  {
    forall a: Model ensures Models(a, t) <==> Models(a, s) && SatClause(a, c) {
      if Models(a, t) {
        GrownModels(s, t, a);
        assert Problem(t.ca, |s.ca|);
      }
      if Models(a, s) && SatClause(a, c) {
        forall cr | Problem(t.ca, cr) ensures SatClause(a, t.ca[cr].lits) {
          if cr < |s.ca| {
            assert Problem(s.ca, cr);
          }
        }
      }
    }
  }

  // ---------------------------------------------------------------- how much there is left to shorten

  /** The number of literals in remaining clauses. */
  ghost function Weight(ca: Pool): nat {
    if ca == [] then 0
    else Weight(ca[..|ca| - 1]) + if ca[|ca| - 1].mark != 1 then |ca[|ca| - 1].lits| else 0
  }

  ghost function Load(c: SClause): nat {
    if c.mark != 1 then |c.lits| else 0
  }

  lemma {:induction false} WeightUpdate(ca: Pool, cr: CRef, c: SClause)
    requires 0 <= cr < |ca|
    ensures Weight(ca[cr := c]) == Weight(ca) - Load(ca[cr]) + Load(c)
  {
    var n := |ca| - 1;
    if cr == n {
      assert ca[cr := c][..n] == ca[..n];
    } else {
      assert ca[cr := c][..n] == ca[..n][cr := c];
      WeightUpdate(ca[..n], cr, c);
    }
  }

  lemma WeightSame(ca: Pool, cb: Pool)
    requires Shuffled(ca, cb)
    ensures Weight(ca) == Weight(cb)
  {
    WeightShuffled(ca, cb);
  }

  lemma {:induction false} WeightShuffled(ca: Pool, cb: Pool)
    requires |ca| == |cb|
    requires forall k :: 0 <= k < |ca| ==> ca[k].mark == cb[k].mark && |ca[k].lits| == |cb[k].lits|
    ensures Weight(ca) == Weight(cb)
  {
    if ca != [] {
      WeightShuffled(ca[..|ca| - 1], cb[..|cb| - 1]);
    }
  }
}
