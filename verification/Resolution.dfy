/** Resolving, subsuming and strengthening clauses. */
module Resolution {
  import opened Sat

  // ---------------------------------------------------------------- resolvents

  /** The literals of c whose variable is not in vs, in order. */
  function Without(c: seq<Lit>, vs: set<Var>): seq<Lit> {
    if c == [] then []
    else
      var l := c[|c| - 1];
      Without(c[..|c| - 1], vs) + if l.v in vs then [] else [l]
  }

  /** The resolvent on v, as `merge` lays it out: the longer clause last. */
  function Resolvent(ps: seq<Lit>, qs: seq<Lit>, v: Var): seq<Lit> {
    if |ps| < |qs| then Without(ps, VarsOf(qs) + {v}) + Without(qs, {v})
    else Without(qs, VarsOf(ps) + {v}) + Without(ps, {v})
  }

  /** The clauses disagree on a variable other than v, so every assignment satisfies their resolvent. */
  ghost predicate Clash(ps: seq<Lit>, qs: seq<Lit>, v: Var) {
    exists p :: p in ps && Neg(p) in qs && p.v != v
  }

  lemma ClashSymmetric(ps: seq<Lit>, qs: seq<Lit>, v: Var)
    ensures Clash(ps, qs, v) <==> Clash(qs, ps, v)
  {
    forall p: Lit ensures Neg(Neg(p)) == p {
    }
    if Clash(ps, qs, v) {
      var p :| p in ps && Neg(p) in qs && p.v != v;
      assert Neg(p) in qs && Neg(Neg(p)) in ps;
    }
    if Clash(qs, ps, v) {
      var p :| p in qs && Neg(p) in ps && p.v != v;
      assert Neg(p) in ps && Neg(Neg(p)) in qs;
    }
  }

  lemma {:induction false} WithoutMember(c: seq<Lit>, vs: set<Var>, p: Lit)
    ensures p in Without(c, vs) <==> p in c && p.v !in vs
  {
    if c != [] {
      var n := |c| - 1;
      WithoutMember(c[..n], vs, p);
      assert c == c[..n] + [c[n]];
    }
  }

  lemma {:induction false} WithoutNoPair(c: seq<Lit>, vs: set<Var>)
    requires NoPair(c)
    ensures NoPair(Without(c, vs))
  {
    if c != [] {
      var n := |c| - 1;
      WithoutNoPair(c[..n], vs);
      forall k | 0 <= k < |Without(c[..n], vs)| ensures Without(c[..n], vs)[k].v != c[n].v {
        WithoutMember(c[..n], vs, Without(c[..n], vs)[k]);
      }
    }
  }

  /** Dropping one variable that occurs costs exactly one literal. */
  lemma {:induction false} WithoutLength(c: seq<Lit>, v: Var)
    requires NoPair(c)
    ensures |Without(c, {v})| == |c| - if v in VarsOf(c) then 1 else 0
  {
    if c != [] {
      var n := |c| - 1;
      WithoutLength(c[..n], v);
      assert c == c[..n] + [c[n]];
      if c[n].v == v {
        assert v !in VarsOf(c[..n]);
        assert c[n] in c;
      } else {
        assert v in VarsOf(c) <==> v in VarsOf(c[..n]);
      }
    }
  }

  /** The resolvent holds exactly the other literals of the two clauses, each variable once. */
  lemma ResolventMembers(ps: seq<Lit>, qs: seq<Lit>, v: Var)
    requires NoPair(ps) && NoPair(qs) && !Clash(ps, qs, v)
    ensures NoPair(Resolvent(ps, qs, v))
    ensures forall p :: p in Resolvent(ps, qs, v) <==> (p in ps || p in qs) && p.v != v
  {
    var (long, short) := if |ps| < |qs| then (qs, ps) else (ps, qs);
    OrderedResolvent(long, short, v);
    ClashSymmetric(ps, qs, v);
    forall p ensures p in Resolvent(ps, qs, v) <==> (p in ps || p in qs) && p.v != v {
      if p in short && p.v in VarsOf(long) && p.v != v {
        var q :| q in long && q.v == p.v;
        assert q == p || Neg(q) == p;
      }
    }
  }

  lemma OrderedResolvent(long: seq<Lit>, short: seq<Lit>, v: Var)
    requires NoPair(long) && NoPair(short)
    ensures var r := Without(short, VarsOf(long) + {v}) + Without(long, {v});
            NoPair(r)
            && forall p :: p in r <==> (p in short && p.v !in VarsOf(long) && p.v != v) || (p in long && p.v != v)
  {
    var a, b := Without(short, VarsOf(long) + {v}), Without(long, {v});
    WithoutNoPair(short, VarsOf(long) + {v});
    WithoutNoPair(long, {v});
    forall p ensures p in a + b <==> (p in short && p.v !in VarsOf(long) && p.v != v) || (p in long && p.v != v) {
      WithoutMember(short, VarsOf(long) + {v}, p);
      WithoutMember(long, {v}, p);
    }
    forall i, j | 0 <= i < |a| && 0 <= j < |b| ensures a[i].v != b[j].v {
      WithoutMember(short, VarsOf(long) + {v}, a[i]);
      WithoutMember(long, {v}, b[j]);
      assert b[j].v in VarsOf(long);
    }
  }

  /** Resolution is sound: whatever satisfies both clauses satisfies the resolvent. */
  lemma ResolventHolds(a: Model, ps: seq<Lit>, qs: seq<Lit>, v: Var)
    requires NoPair(ps) && NoPair(qs) && !Clash(ps, qs, v)
    requires Lit(v, false) in ps && Lit(v, true) in qs
    requires SatClause(a, ps) && SatClause(a, qs)
    ensures SatClause(a, Resolvent(ps, qs, v))
  {
    ResolventMembers(ps, qs, v);
    var p :| p in ps && Holds(a, p);
    var q :| q in qs && Holds(a, q);
    if p.v == v && q.v == v {
      OneLit(ps, p, Lit(v, false));
      OneLit(qs, q, Lit(v, true));
    } else if p.v != v {
      assert p in Resolvent(ps, qs, v);
    } else {
      assert q in Resolvent(ps, qs, v);
    }
  }

  lemma OneLit(c: seq<Lit>, p: Lit, q: Lit)
    requires NoPair(c) && p in c && q in c && p.v == q.v
    ensures p == q
  {
  }

  /** Build the resolvent on v; false when it is a tautology. */
  method Merge(ps0: seq<Lit>, qs0: seq<Lit>, v: Var) returns (b: bool, out: seq<Lit>)
    requires NoPair(ps0) && NoPair(qs0)
    ensures b <==> !Clash(ps0, qs0, v)
    ensures b ==> out == Resolvent(ps0, qs0, v)
  {
    var ps, qs := if |ps0| < |qs0| then qs0 else ps0, if |ps0| < |qs0| then ps0 else qs0;
    ClashSymmetric(ps0, qs0, v);
    hide NoPair, Clash, VarsOf;
    out := [];
    var i := 0;
    while i < |qs|
      invariant 0 <= i <= |qs| && out == Without(qs[..i], VarsOf(ps) + {v})
      invariant forall k :: 0 <= k < i && qs[k].v != v ==> Neg(qs[k]) !in ps
    {
      assert qs[..i + 1][..i] == qs[..i];
      if qs[i].v != v {
        var j := FindVar(ps, qs[i].v);
        if j < |ps| {
          if ps[j] == Neg(qs[i]) {
            ClashFound(ps0, qs0, v, qs[i]);
            return false, out;
          }
          OnlyAt(ps, j, Neg(qs[i]));
        } else {
          out := out + [qs[i]];
        }
      }
      i := i + 1;
    }
    NoClash(ps0, qs0, v);
    assert qs[..|qs|] == qs;
    b := true;
    out := AppendWithout(out, ps, v);
  }

  /** Append the literals of ps that are not on v. */
  method AppendWithout(head: seq<Lit>, ps: seq<Lit>, v: Var) returns (out: seq<Lit>)
    ensures out == head + Without(ps, {v})
  {
    out := head;
    var i := 0;
    while i < |ps|
      invariant 0 <= i <= |ps| && out == head + Without(ps[..i], {v})
    {
      assert ps[..i + 1][..i] == ps[..i];
      if ps[i].v != v {
        out := out + [ps[i]];
      }
      i := i + 1;
    }
    assert ps[..|ps|] == ps;
  }

  /** The first position holding a literal on x, or the length. */
  method FindVar(c: seq<Lit>, x: Var) returns (j: nat)
    ensures j <= |c| && (j < |c| ==> c[j].v == x)
    ensures j == |c| <==> x !in VarsOf(c)
    ensures j == |c| ==> forall p :: p in c ==> p.v != x
  {
    j := 0;
    while j < |c| && c[j].v != x
      invariant j <= |c| && forall k :: 0 <= k < j ==> c[k].v != x
    {
      j := j + 1;
    }
    if j < |c| {
      assert c[j] in c;
    }
  }

  lemma OnlyAt(c: seq<Lit>, j: nat, p: Lit)
    requires NoPair(c) && j < |c| && c[j].v == p.v && c[j] != p
    ensures p !in c
  {
  }

  lemma ClashFound(ps: seq<Lit>, qs: seq<Lit>, v: Var, q: Lit)
    requires q.v != v
    requires if |ps| < |qs| then q in ps && Neg(q) in qs else q in qs && Neg(q) in ps
    ensures Clash(ps, qs, v)
  {
    assert Neg(Neg(q)) == q;
    if |ps| >= |qs| {
      assert Neg(q) in ps && Neg(Neg(q)) in qs;
    }
  }

  lemma NoClash(ps: seq<Lit>, qs: seq<Lit>, v: Var)
    requires var (long, short) := if |ps| < |qs| then (qs, ps) else (ps, qs);
             forall k :: 0 <= k < |short| && short[k].v != v ==> Neg(short[k]) !in long
    ensures !Clash(ps, qs, v)
  {
    ClashSymmetric(ps, qs, v);
    var (long, short) := if |ps| < |qs| then (qs, ps) else (ps, qs);
    forall p: Lit | p in short && p.v != v ensures Neg(p) !in long {
      var k :| 0 <= k < |short| && short[k] == p;
    }
    assert !Clash(short, long, v);
  }

  /** The size the resolvent would have, without building it; false when it is a tautology. */
  method MergeSize(ps0: seq<Lit>, qs0: seq<Lit>, v: Var) returns (b: bool, size: int)
    requires NoPair(ps0) && NoPair(qs0) && v in VarsOf(ps0) && v in VarsOf(qs0)
    ensures b <==> !Clash(ps0, qs0, v)
    ensures b ==> size == |Resolvent(ps0, qs0, v)|
  {
    var ps, qs := if |ps0| < |qs0| then qs0 else ps0, if |ps0| < |qs0| then ps0 else qs0;
    ClashSymmetric(ps0, qs0, v);
    hide NoPair, Clash, VarsOf;
    WithoutLength(ps, v);
    size := |ps| - 1;
    var i := 0;
    while i < |qs|
      invariant 0 <= i <= |qs| && size == |ps| - 1 + |Without(qs[..i], VarsOf(ps) + {v})|
      invariant forall k :: 0 <= k < i && qs[k].v != v ==> Neg(qs[k]) !in ps
    {
      assert qs[..i + 1][..i] == qs[..i];
      if qs[i].v != v {
        var j := FindVar(ps, qs[i].v);
        if j < |ps| {
          if ps[j] == Neg(qs[i]) {
            ClashFound(ps0, qs0, v, qs[i]);
            return false, size;
          }
          OnlyAt(ps, j, Neg(qs[i]));
        } else {
          size := size + 1;
        }
      }
      i := i + 1;
    }
    NoClash(ps0, qs0, v);
    assert qs[..|qs|] == qs;
    b := true;
  }

  // ---------------------------------------------------------------- the 32-bit abstraction

  /** A 32-bit mask, as the set of its one bits. */
  type Mask = set<nat>

  /** The mask `calcAbstraction` stores: one bit per variable modulo 32. */
  function Abstraction(c: seq<Lit>): Mask {
    if c == [] then {} else Abstraction(c[..|c| - 1]) + {c[|c| - 1].v % 32}
  }

  lemma {:induction false} AbstractionBits(c: seq<Lit>)
    ensures Abstraction(c) == set x | x in VarsOf(c) :: x % 32
  {
    if c != [] {
      var n := |c| - 1;
      AbstractionBits(c[..n]);
      assert c == c[..n] + [c[n]];
      assert VarsOf(c) == VarsOf(c[..n]) + {c[n].v};
      forall x | x in VarsOf(c[..n]) ensures x % 32 in Abstraction(c) {
      }
    }
  }

  /** The filter never rejects a subsumed clause: fewer variables give a smaller abstraction. */
  lemma AbstractionMonotone(c: seq<Lit>, d: seq<Lit>)
    requires VarsOf(c) <= VarsOf(d)
    ensures Abstraction(c) <= Abstraction(d)
  {
    AbstractionBits(c);
    AbstractionBits(d);
  }

  /** The abstraction depends only on which literals occur. */
  lemma AbstractionSame(c: seq<Lit>, d: seq<Lit>)
    requires SameLits(c, d)
    ensures Abstraction(c) == Abstraction(d)
  {
    AbstractionBits(c);
    AbstractionBits(d);
    assert VarsOf(c) == VarsOf(d);
  }

  // ---------------------------------------------------------------- subsumption

  /** The answers of `subsumes`: lit_Error, lit_Undef, or the literal resolved on. */
  datatype Subsumption = Unrelated | Subsumed | ResolveOn(p: Lit)

  /** Every literal of c other than x occurs in d. */
  predicate InBut(c: seq<Lit>, d: seq<Lit>, x: Lit) {
    forall k :: 0 <= k < |c| && c[k] != x ==> c[k] in d
  }

  /** What the answer means: d contains c, or d contains c with exactly x negated, or neither. */
  ghost predicate Relates(c: seq<Lit>, d: seq<Lit>, r: Subsumption) {
    match r
    case Subsumed => forall p :: p in c ==> p in d
    case ResolveOn(x) => x in c && Neg(x) in d && InBut(c, d, x)
    case Unrelated =>
      && !(forall p :: p in c ==> p in d)
      && forall x :: x in c && Neg(x) in d ==> !InBut(c, d, x)
  }

  /** Exactly one answer is right. */
  lemma RelatesUnique(c: seq<Lit>, d: seq<Lit>, r: Subsumption, t: Subsumption)
    requires NoPair(d) && Relates(c, d, r) && Relates(c, d, t)
    ensures r == t
  {
    if r.ResolveOn? && t.Subsumed? {
      OneLit(d, r.p, Neg(r.p));
    } else if t.ResolveOn? && r.Subsumed? {
      OneLit(d, t.p, Neg(t.p));
    } else if r.ResolveOn? && t.ResolveOn? && r.p != t.p {
      assert r.p in d;
      OneLit(d, r.p, Neg(r.p));
    }
  }

  lemma {:induction false} FitsIn(c: seq<Lit>, d: seq<Lit>)
    requires NoPair(c) && VarsOf(c) <= VarsOf(d)
    ensures |c| <= |d|
  {
    if c != [] {
      var n := |c| - 1;
      assert c[n].v in VarsOf(c);
      var q :| q in d && q.v == c[n].v;
      var k :| 0 <= k < |d| && d[k] == q;
      var d' := d[..k] + d[k + 1..];
      forall x | x in VarsOf(c[..n]) ensures x in VarsOf(d') {
        var p :| p in c[..n] && p.v == x;
        assert p in c && x in VarsOf(c);
        var y :| y in d && y.v == x;
        var m :| 0 <= m < |d| && d[m] == y;
        assert m != k;
        assert d'[if m < k then m else m - 1] == y;
      }
      FitsIn(c[..n], d');
    }
  }

  /** The quick tests reject only unrelated clauses. */
  lemma FilterSound(c: seq<Lit>, d: seq<Lit>)
    requires NoPair(c) && (|d| < |c| || !(Abstraction(c) <= Abstraction(d)))
    ensures Relates(c, d, Unrelated)
  {
    if VarsOf(c) <= VarsOf(d) {
      FitsIn(c, d);
      AbstractionMonotone(c, d);
    }
    var x :| x in VarsOf(c) && x !in VarsOf(d);
    var p :| p in c && p.v == x;
    assert p !in d && Neg(p).v == x && Neg(p) !in d;
  }

  /** Does c subsume d, or resolve a literal out of it? */
  method Subsumes(c: seq<Lit>, cAbs: Mask, d: seq<Lit>, dAbs: Mask) returns (r: Subsumption)
    requires NoPair(c) && NoPair(d) && cAbs == Abstraction(c) && dAbs == Abstraction(d)
    ensures Relates(c, d, r)
  {
    if |d| < |c| || !(cAbs <= dAbs) {
      FilterSound(c, d);
      return Unrelated;
    }
    r := Subsumed;
    var i := 0;
    while i < |c|
      invariant 0 <= i <= |c| && !r.Unrelated?
      invariant r.ResolveOn? ==> r.p in c[..i] && Neg(r.p) in d && r.p !in d
      invariant forall k :: 0 <= k < i ==> c[k] in d || r == ResolveOn(c[k])
    {
      var j, found := 0, false;
      while j < |d| && !found
        invariant 0 <= j <= |d|
        invariant !found ==> c[i] !in d[..j] && (Neg(c[i]) in d[..j] ==> r.ResolveOn?)
        invariant !found ==> !r.Unrelated? && (r.ResolveOn? ==> r.p in c[..i] && Neg(r.p) in d && r.p !in d)
        invariant !found ==> forall k :: 0 <= k < i ==> c[k] in d || r == ResolveOn(c[k])
        invariant found ==> !r.Unrelated? && (r.ResolveOn? ==> r.p in c[..i + 1] && Neg(r.p) in d && r.p !in d)
        invariant found ==> forall k :: 0 <= k <= i ==> c[k] in d || r == ResolveOn(c[k])
      {
        if c[i] == d[j] {
          found := true;
        } else if r == Subsumed && c[i] == Neg(d[j]) {
          assert Neg(c[i]) == d[j];
          OnlyAt(d, j, c[i]);
          r := ResolveOn(c[i]);
          found := true;
        }
        j := j + 1;
      }
      if !found {
        assert d[..|d|] == d;
        NotFound(c, d, i, r);
        return Unrelated;
      }
      i := i + 1;
    }
  }

  lemma NotFound(c: seq<Lit>, d: seq<Lit>, i: nat, r: Subsumption)
    requires NoPair(c) && i < |c| && c[i] !in d && (Neg(c[i]) in d ==> r.ResolveOn?)
    requires r.ResolveOn? ==> r.p in c[..i] && r.p !in d
    ensures Relates(c, d, Unrelated)
  {
    forall x | x in c && Neg(x) in d ensures !InBut(c, d, x) {
      if x == c[i] {
        assert r.p != x;
      }
    }
  }

  /** Deleting ~x is justified by resolving on x. */
  lemma ResolveOnHolds(a: Model, c: seq<Lit>, d: seq<Lit>, x: Lit)
    requires NoPair(c) && Relates(c, d, ResolveOn(x)) && SatClause(a, c) && SatClause(a, d)
    ensures SatClause(a, Erased(d, Neg(x)))
  {
    ErasedMember(d, Neg(x));
    var p :| p in c && Holds(a, p);
    var q :| q in d && Holds(a, q);
    if q != Neg(x) {
      assert q in Erased(d, Neg(x));
    } else {
      OneLit(c, x, if p == Neg(x) then p else x);
      assert p in d && p != Neg(x);
      assert p in Erased(d, Neg(x));
    }
  }

  /** c without its first occurrence of x; the rest moves up. */
  function Erased<T(==)>(c: seq<T>, x: T): seq<T> {
    if c == [] then [] else if c[0] == x then c[1..] else [c[0]] + Erased(c[1..], x)
  }

  lemma {:induction false} ErasedMember(c: seq<Lit>, x: Lit)
    ensures forall p :: p in Erased(c, x) ==> p in c
    ensures forall p :: p in c && p != x ==> p in Erased(c, x)
    ensures x in c ==> |Erased(c, x)| == |c| - 1
  {
    if c != [] && c[0] != x {
      ErasedMember(c[1..], x);
      assert c == [c[0]] + c[1..];
    }
  }

  lemma {:induction false} ErasedNoPair(c: seq<Lit>, x: Lit)
    requires NoPair(c)
    ensures NoPair(Erased(c, x)) && (x in c ==> x !in Erased(c, x))
  {
    if c != [] && c[0] != x {
      ErasedNoPair(c[1..], x);
      ErasedMember(c[1..], x);
      var d := Erased(c[1..], x);
      forall k | 0 <= k < |d| ensures d[k].v != c[0].v {
        assert d[k] in c[1..];
      }
      assert Erased(c, x) == [c[0]] + d;
    }
  }
}
