/** An optional value. */
module Wrappers {
  datatype Option<+T> = None | Some(value: T)
}

/** Powers of natural numbers. */
module Powers {
  function Pow(b: nat, k: nat): (r: nat)
    ensures b > 0 ==> r > 0
  {
    if k == 0 then 1
    else if b == 0 then 0
    else
      assert Pow(b, k - 1) > 0;
      MulPositive(b, Pow(b, k - 1));
      b * Pow(b, k - 1)
  }

  lemma MulPositive(a: nat, b: nat)
    requires a > 0 && b > 0
    ensures a * b > 0
  {
  }
}

/** Literals, clauses, formulas and their meaning. */
module Sat {

  type Var = nat

  /** A literal: a variable and a sign. `neg` is the low bit of the integer the solver stores. */
  datatype Lit = Lit(v: Var, neg: bool)

  /** The solver's `~p`. */
  function Neg(p: Lit): Lit {
    Lit(p.v, !p.neg)
  }

  /** The dense integer code of a literal, used as an array index and as the sorting key. */
  function ToInt(p: Lit): nat {
    2 * p.v + if p.neg then 1 else 0
  }

  function ToLit(i: nat): Lit {
    Lit(i / 2, i % 2 == 1)
  }

  /** Coding is a bijection, and the complement is the neighbour in the coded order. */
  lemma LitCoding(p: Lit, i: nat)
    ensures ToLit(ToInt(p)) == p
    ensures ToInt(ToLit(i)) == i
    ensures ToInt(Neg(p)) == if ToInt(p) % 2 == 0 then ToInt(p) + 1 else ToInt(p) - 1
  {
  }

  datatype LBool = True | False | Undef

  predicate IsTrue(assigns: seq<LBool>, p: Lit) {
    p.v < |assigns| && assigns[p.v] == if p.neg then False else True
  }

  predicate IsFalse(assigns: seq<LBool>, p: Lit) {
    p.v < |assigns| && assigns[p.v] == if p.neg then True else False
  }

  predicate IsUndef(assigns: seq<LBool>, p: Lit) {
    p.v < |assigns| && assigns[p.v] == Undef
  }

  /** A total assignment. */
  type Model = Var -> bool

  /** The total assignment that reads every variable not true as false. */
  function TrailModel(assigns: seq<LBool>): Model {
    (v: Var) => v < |assigns| && assigns[v] == True
  }

  predicate Holds(a: Model, p: Lit) {
    a(p.v) != p.neg
  }

  ghost predicate SatClause(a: Model, c: seq<Lit>) {
    exists p :: p in c && Holds(a, p)
  }

  type Formula = seq<seq<Lit>>

  ghost predicate SatAll(a: Model, f: Formula) {
    forall c :: c in f ==> SatClause(a, c)
  }

  /** Every model of `f` satisfies the clause `c`. */
  ghost predicate Entails(f: Formula, c: seq<Lit>) {
    forall a: Model :: SatAll(a, f) ==> SatClause(a, c)
  }

  ghost predicate Unsat(f: Formula) {
    forall a: Model :: !SatAll(a, f)
  }

  /** No model of f makes all the literals hold. */
  ghost predicate Contradicts(f: Formula, ps: seq<Lit>) {
    forall a: Model :: SatAll(a, f) ==> exists p :: p in ps && !Holds(a, p)
  }

  /** An entailed clause of complements of ps shows that ps contradicts the formula. */
  lemma ConflictContradicts(f: Formula, conflict: seq<Lit>, ps: seq<Lit>)
    requires Entails(f, conflict) && forall x :: x in conflict ==> Neg(x) in ps
    ensures Contradicts(f, ps)
  {
    forall a: Model | SatAll(a, f) ensures exists p :: p in ps && !Holds(a, p) {
      assert SatClause(a, conflict);
      var x :| x in conflict && Holds(a, x);
      assert Neg(x) in ps && !Holds(a, Neg(x));
    }
  }

  /** No literal occurs twice. */
  ghost predicate NoDup(c: seq<Lit>) {
    forall i, j :: 0 <= i < j < |c| ==> c[i] != c[j]
  }

  /** No variable occurs twice. */
  ghost predicate NoPair(c: seq<Lit>) {
    forall i, j :: 0 <= i < j < |c| ==> c[i].v != c[j].v
  }

  function VarsOf(c: seq<Lit>): set<Var> {
    set p | p in c :: p.v
  }

  lemma SatAppend(a: Model, f: Formula, c: seq<Lit>)
    ensures SatAll(a, f + [c]) <==> SatAll(a, f) && SatClause(a, c)
  {
    assert forall d :: d in f + [c] <==> d in f || d == c;
  }

  ghost predicate SameLits(c: seq<Lit>, d: seq<Lit>) {
    |c| == |d| && forall p :: p in c <==> p in d
  }

  function Swap<T>(c: seq<T>, i: nat, j: nat): (d: seq<T>)
    requires i < |c| && j < |c|
  {
    c[i := c[j]][j := c[i]]
  }

  lemma SwapSame(c: seq<Lit>, i: nat, j: nat)
    requires i < |c| && j < |c|
    ensures SameLits(c, Swap(c, i, j))
    ensures NoDup(c) ==> NoDup(Swap(c, i, j))
  {
    var d := Swap(c, i, j);
    forall p | p in c ensures p in d {
      var k :| 0 <= k < |c| && c[k] == p;
      assert d[if k == i then j else if k == j then i else k] == p;
    }
    forall p | p in d ensures p in c {
      var k :| 0 <= k < |d| && d[k] == p;
      assert c[if k == i then j else if k == j then i else k] == p;
    }
  }

  lemma SameLitsEntails(f: Formula, c: seq<Lit>, d: seq<Lit>)
    requires Entails(f, c)
    requires forall p :: p in c ==> p in d
    ensures Entails(f, d)
  {
    forall a: Model | SatAll(a, f) ensures SatClause(a, d) {
      assert SatClause(a, c);
    }
  }
}
