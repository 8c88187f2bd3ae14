/** Shortening a learnt clause by resolving with binary clauses. */
module BinaryResolution {
  import opened Sat
  import opened Resolution

  /** A watcher of a binary clause: the blocker is the clause's other literal. */
  datatype BinaryWatcher = BinaryWatcher(blocker: Lit)

  /** The list of p names entailed clauses of ~p and the blocker. */
  ghost predicate WatchesEntailed(f: Formula, watchesBin: map<Lit, seq<BinaryWatcher>>) {
    forall p, k :: p in watchesBin && 0 <= k < |watchesBin[p]| ==> Entails(f, [Neg(p), watchesBin[p][k].blocker])
  }

  /** The number of literals on the variables vs. */
  ghost function Hits(c: seq<Lit>, vs: set<Var>): nat {
    if c == [] then 0 else Hits(c[..|c| - 1], vs) + if c[|c| - 1].v in vs then 1 else 0
  }

  lemma {:induction false} HitsAppend(c: seq<Lit>, d: seq<Lit>, vs: set<Var>)
    ensures Hits(c + d, vs) == Hits(c, vs) + Hits(d, vs)
    decreases |d|
  {
    if d == [] {
      assert c + d == c;
    } else {
      assert (c + d)[..|c + d| - 1] == c + d[..|d| - 1];
      HitsAppend(c, d[..|d| - 1], vs);
    }
  }

  lemma {:induction false} HitsNone(c: seq<Lit>, vs: set<Var>)
    requires forall k :: 0 <= k < |c| ==> c[k].v !in vs
    ensures Hits(c, vs) == 0
  {
    if c != [] {
      HitsNone(c[..|c| - 1], vs);
    }
  }

  lemma {:induction false} HitsAll(c: seq<Lit>, vs: set<Var>)
    ensures Hits(c, vs) <= |c|
    ensures Hits(c, vs) == |c| ==> forall k :: 0 <= k < |c| ==> c[k].v in vs
  {
    if c != [] {
      HitsAll(c[..|c| - 1], vs);
    }
  }

  /** In a clause without repeated variables, each variable of the set is hit once. */
  lemma {:induction false} HitsCount(c: seq<Lit>, vs: set<Var>)
    requires NoPair(c) && vs <= VarsOf(c)
    ensures Hits(c, vs) == |vs|
  {
    if c == [] {
      assert vs == {};
    } else {
      var n := |c| - 1;
      var l := c[n];
      assert c == c[..n] + [l];
      forall x | x in vs - {l.v} ensures x in VarsOf(c[..n]) {
        var p :| p in c && p.v == x;
        assert p in c[..n];
      }
      HitsCount(c[..n], vs - {l.v});
      HitsBut(c[..n], vs, l.v);
    }
  }

  lemma {:induction false} HitsBut(c: seq<Lit>, vs: set<Var>, x: Var)
    requires forall k :: 0 <= k < |c| ==> c[k].v != x
    ensures Hits(c, vs) == Hits(c, vs - {x})
  {
    if c != [] {
      HitsBut(c[..|c| - 1], vs, x);
    }
  }

  lemma HitsSwap(c: seq<Lit>, vs: set<Var>, i: nat, j: nat)
    requires i <= j < |c|
    ensures Hits(Swap(c, i, j), vs) == Hits(c, vs)
  {
    if i == j {
      assert Swap(c, i, j) == c;
    } else {
      var x, y, z := c[..i], c[i + 1..j], c[j + 1..];
      assert c == x + [c[i]] + y + [c[j]] + z;
      assert Swap(c, i, j) == x + [c[j]] + y + [c[i]] + z;
      HitsFive(x, c[i], y, c[j], z, vs);
      HitsFive(x, c[j], y, c[i], z, vs);
    }
  }

  lemma HitsFive(x: seq<Lit>, p: Lit, y: seq<Lit>, q: Lit, z: seq<Lit>, vs: set<Var>)
    ensures Hits(x + [p] + y + [q] + z, vs)
            == Hits(x, vs) + Hits([p], vs) + Hits(y, vs) + Hits([q], vs) + Hits(z, vs)
  {
    HitsAppend(x, [p], vs);
    HitsAppend(x + [p], y, vs);
    HitsAppend(x + [p] + y, [q], vs);
    HitsAppend(x + [p] + y + [q], z, vs);
  }

  /** Some binary clause among the first k has a true literal on v. */
  ghost predicate Implied(wbin: seq<BinaryWatcher>, assigns: seq<LBool>, k: nat, v: Var) {
    exists m :: 0 <= m < k && m < |wbin| && wbin[m].blocker.v == v && IsTrue(assigns, wbin[m].blocker)
  }

  lemma ImpliedStep(wbin: seq<BinaryWatcher>, assigns: seq<LBool>, k: nat)
    requires k < |wbin|
    ensures forall v :: Implied(wbin, assigns, k + 1, v) <==>
                        Implied(wbin, assigns, k, v) || (wbin[k].blocker.v == v && IsTrue(assigns, wbin[k].blocker))
  {
    forall v | Implied(wbin, assigns, k, v) ensures Implied(wbin, assigns, k + 1, v) {
      var m :| 0 <= m < k && wbin[m].blocker.v == v && IsTrue(assigns, wbin[m].blocker);
    }
  }

  /** Dropping literals each of whose complements follows from the negated first literal is sound. */
  lemma ShortenedEntailed(f: Formula, c: seq<Lit>, d: seq<Lit>, dropped: set<Var>)
    requires Entails(f, c) && c != [] && c[0] in d
    requires forall p :: p in c && p.v !in dropped ==> p in d
    requires forall p :: p in c && p.v in dropped ==> Entails(f, [c[0], Neg(p)])
    ensures Entails(f, d)
  {
    forall a: Model | SatAll(a, f) ensures SatClause(a, d) {
      var p :| p in c && Holds(a, p);
      if p.v in dropped {
        assert SatClause(a, [c[0], Neg(p)]);
        assert Holds(a, c[0]);
      }
    }
  }

  class Minimiser {
    var permDiff: seq<int>
    var myFlag: int
    var watchesBin: map<Lit, seq<BinaryWatcher>>
    var assigns: seq<LBool>
    var lbLBDMinimizingClause: nat

    /** No stamp is newer than the counter. */
    ghost predicate Valid()
      reads this
    {
      && |permDiff| == |assigns|
      && (forall v :: 0 <= v < |permDiff| ==> permDiff[v] <= myFlag)
      && forall p, k :: p in watchesBin && 0 <= k < |watchesBin[p]| ==> watchesBin[p][k].blocker.v < |assigns|
    }

    /** A learnt clause as analysis leaves it: distinct variables, all literals false. */
    ghost predicate Learnt(c: seq<Lit>)
      reads this
    {
      c != [] && NoPair(c) && Neg(c[0]) in watchesBin && forall p :: p in c ==> IsFalse(assigns, p)
    }

    /** Stamp the variables of all literals but the first. */
    method Stamp(c: seq<Lit>)
      requires Valid() && Learnt(c) && forall v :: 0 <= v < |permDiff| ==> permDiff[v] < myFlag
      modifies this`permDiff
      ensures Valid()
      ensures forall v :: 0 <= v < |permDiff| ==> (permDiff[v] == myFlag <==> v in VarsOf(c[1..]))
    {
      var i := 1;
      while i < |c|
        invariant 1 <= i <= |c| && Valid()
        invariant forall v :: 0 <= v < |permDiff| ==> (permDiff[v] == myFlag <==> v in VarsOf(c[1..i]))
      {
        assert c[i] in c;
        assert c[1..i + 1] == c[1..i] + [c[i]];
        assert VarsOf(c[1..i + 1]) == VarsOf(c[1..i]) + {c[i].v};
        permDiff := permDiff[c[i].v := myFlag];
        i := i + 1;
      }
      assert c[1..|c|] == c[1..];
    }

    /** Count and unstamp the variables whose literal a binary clause resolves away. */
    method Unstamp(c: seq<Lit>) returns (nb: nat, ghost dropped: set<Var>)
      requires Valid() && Learnt(c)
      requires forall v :: 0 <= v < |permDiff| ==> (permDiff[v] == myFlag <==> v in VarsOf(c[1..]))
      modifies this`permDiff
      ensures Valid() && nb == |dropped|
      ensures forall v :: 0 <= v < |permDiff| ==> (permDiff[v] == myFlag <==> v in VarsOf(c[1..]) - dropped)
      ensures forall v :: v in dropped <==>
                v in VarsOf(c[1..]) && Implied(watchesBin[Neg(c[0])], assigns, |watchesBin[Neg(c[0])]|, v)
    {
      hide Implied, VarsOf, NoPair;
      var wbin := watchesBin[Neg(c[0])];
      nb, dropped := 0, {};
      var k := 0;
      ImpliedStart(wbin, assigns);
      while k < |wbin|
        invariant 0 <= k <= |wbin| && Valid() && nb == |dropped|
        invariant forall v :: 0 <= v < |permDiff| ==> (permDiff[v] == myFlag <==> v in VarsOf(c[1..]) - dropped)
        invariant forall v :: v in dropped <==> v in VarsOf(c[1..]) && Implied(wbin, assigns, k, v)
      {
        var imp := wbin[k].blocker;
        ImpliedStep(wbin, assigns, k);
        if permDiff[imp.v] == myFlag && IsTrue(assigns, imp) {
          nb := nb + 1;
          permDiff := permDiff[imp.v := myFlag - 1];
          dropped := dropped + {imp.v};
        }
        k := k + 1;
      }
    }

    /** Swap the unstamped literals to the end. */
    method Partition(c: seq<Lit>, nb: nat, ghost dropped: set<Var>) returns (d: seq<Lit>)
      requires Valid() && Learnt(c) && nb == |dropped| && dropped <= VarsOf(c[1..]) && nb > 0
      requires forall v :: 0 <= v < |permDiff| ==> (permDiff[v] == myFlag <==> v in VarsOf(c[1..]) - dropped)
      ensures SameLits(c, d) && NoPair(d) && nb < |d| && d[0] == c[0]
      ensures forall k :: 1 <= k < |d| - nb ==> d[k].v !in dropped
      ensures forall k :: |d| - nb <= k < |d| ==> d[k].v in dropped
    {
      d := c;
      TailHits(c, dropped);
      hide Hits, VarsOf;
      var l := |c| - 1;
      var i := 1;
      while i < |d| - nb
        invariant 1 <= i <= l + 1 <= |d| == |c| && |c| - nb - 1 <= l && i <= |d| - nb
        invariant SameLits(c, d) && NoPair(d) && Hits(d, dropped) == nb && d[0] == c[0]
        invariant forall k :: 1 <= k < i ==> d[k].v !in dropped
        invariant forall k :: l < k < |d| ==> d[k].v in dropped
        decreases l - i
      {
        Stamped(c, d, i, dropped);
        Room(d, nb, dropped, l, i);
        if permDiff[d[i].v] != myFlag {
          d := SwapBack(c, d, l, i, dropped);
          l := l - 1;
        } else {
          i := i + 1;
        }
      }
      AllBehind(c[0], d, nb, dropped);
    }

    method SwapBack(ghost c: seq<Lit>, d: seq<Lit>, l: nat, i: nat, ghost dropped: set<Var>) returns (e: seq<Lit>)
      requires 1 <= i <= l < |d| && SameLits(c, d) && NoPair(d)
      ensures e == Swap(d, i, l) && SameLits(c, e) && NoPair(e) && Hits(e, dropped) == Hits(d, dropped)
    {
      HitsSwap(d, dropped, i, l);
      SwapSame(d, i, l);
      e := d[i := d[l]][l := d[i]];
    }

    /** A literal is stamped exactly when it is to be kept. */
    lemma Stamped(c: seq<Lit>, d: seq<Lit>, i: nat, dropped: set<Var>)
      requires Valid() && Learnt(c) && SameLits(c, d) && NoPair(d) && 1 <= i < |d| && d[0] == c[0]
      requires forall v :: 0 <= v < |permDiff| ==> (permDiff[v] == myFlag <==> v in VarsOf(c[1..]) - dropped)
      ensures d[i].v < |permDiff| && (permDiff[d[i].v] == myFlag <==> d[i].v !in dropped)
    {
      assert d[i] in c && c == [c[0]] + c[1..];
      assert d[i].v != d[0].v;
      assert d[i] in c[1..];
      assert d[i].v in VarsOf(c[1..]);
    }

    /**
     * Binary-resolution minimisation: for each binary clause of the first literal and a true literal whose
     * complement occurs in the clause, that complement is removed.
     */
    method Minimise(c: seq<Lit>, lbd: nat, ghost f: Formula) returns (d: seq<Lit>)
      requires Valid() && Learnt(c) && Entails(f, c) && WatchesEntailed(f, watchesBin)
      modifies this`permDiff, this`myFlag
      ensures Valid() && Entails(f, d) && d != [] && d[0] == c[0] && NoPair(d)
      ensures forall p :: p in d ==> p in c
      ensures lbd > lbLBDMinimizingClause ==> d == c
      ensures lbd <= lbLBDMinimizingClause ==>
                forall p :: p in c[1..] ==> (p !in d <==> BinaryWatcher(Neg(p)) in watchesBin[Neg(c[0])])
    {
      d := c;
      if lbd > lbLBDMinimizingClause {
        return;
      }
      myFlag := myFlag + 1;
      Stamp(c);
      ghost var dropped;
      var nb;
      nb, dropped := Unstamp(c);
      TailHits(c, dropped);
      if nb > 0 {
        d := Partition(c, nb, dropped);
        ghost var e := d;
        d := d[..|d| - nb];
        PartitionMembers(c, e, d, nb, dropped);
      }
      NoneDropped(c, dropped);
      Finish(f, c, d, dropped);
    }

    lemma Finish(f: Formula, c: seq<Lit>, d: seq<Lit>, dropped: set<Var>)
      requires Valid() && Learnt(c) && Entails(f, c) && WatchesEntailed(f, watchesBin)
      requires d != [] && d[0] == c[0] && forall p :: p in d <==> p in c && p.v !in dropped
      requires forall v :: v in dropped <==>
                 v in VarsOf(c[1..]) && Implied(watchesBin[Neg(c[0])], assigns, |watchesBin[Neg(c[0])]|, v)
      ensures Entails(f, d)
      ensures forall p :: p in c[1..] ==> (p !in d <==> BinaryWatcher(Neg(p)) in watchesBin[Neg(c[0])])
    {
      var wbin := watchesBin[Neg(c[0])];
      forall p | p in c && p.v in dropped ensures BinaryWatcher(Neg(p)) in wbin && Entails(f, [c[0], Neg(p)]) {
        var k :| 0 <= k < |wbin| && wbin[k].blocker.v == p.v && IsTrue(assigns, wbin[k].blocker);
        assert wbin[k].blocker == Neg(p);
        assert Neg(Neg(c[0])) == c[0];
      }
      ShortenedEntailed(f, c, d, dropped);
      forall p | p in c[1..] && BinaryWatcher(Neg(p)) in wbin ensures p !in d {
        var k :| 0 <= k < |wbin| && wbin[k] == BinaryWatcher(Neg(p));
        assert p in c && IsTrue(assigns, Neg(p)) && p.v in VarsOf(c[1..]);
        assert Implied(wbin, assigns, |wbin|, p.v);
      }
    }
  }

  lemma ImpliedStart(wbin: seq<BinaryWatcher>, assigns: seq<LBool>)
    ensures forall v :: !Implied(wbin, assigns, 0, v)
  {
  }

  lemma NoneDropped(c: seq<Lit>, dropped: set<Var>)
    ensures dropped == {} ==> forall p :: p in c ==> p.v !in dropped
  {
  }

  lemma TailHits(c: seq<Lit>, dropped: set<Var>)
    requires c != [] && NoPair(c) && dropped <= VarsOf(c[1..])
    ensures Hits(c, dropped) == |dropped| && |dropped| < |c| && c[0].v !in dropped
  {
    assert c == [c[0]] + c[1..];
    assert forall k :: 0 <= k < |c[1..]| ==> c[1..][k].v != c[0].v;
    assert VarsOf(c[1..]) <= VarsOf(c);
    HitsCount(c, dropped);
    HitsCount(c[1..], dropped);
    HitsAll(c[1..], dropped);
  }

  /** While kept literals are still to be found, there is room between the two ends. */
  lemma Room(d: seq<Lit>, nb: nat, dropped: set<Var>, l: int, i: nat)
    requires Hits(d, dropped) == nb && 1 <= i < |d| - nb && i <= l + 1 <= |d| && |d| - nb - 1 <= l
    requires forall k :: l < k < |d| ==> d[k].v in dropped
    ensures i <= l && (d[i].v in dropped ==> l > |d| - nb - 1)
  {
    if d[i].v in dropped && l == |d| - nb - 1 {
      var u, t := d[..l + 1], d[l + 1..];
      assert d == u + t;
      HitsAppend(u, t, dropped);
      HitsEvery(t, dropped);
      HitsPositive(u, dropped, i);
    }
  }

  lemma {:induction false} HitsEvery(c: seq<Lit>, vs: set<Var>)
    requires forall k :: 0 <= k < |c| ==> c[k].v in vs
    ensures Hits(c, vs) == |c|
  {
    if c != [] {
      HitsEvery(c[..|c| - 1], vs);
    }
  }

  lemma {:induction false} HitsPositive(c: seq<Lit>, vs: set<Var>, i: nat)
    requires i < |c| && c[i].v in vs
    ensures Hits(c, vs) > 0
  {
    if i < |c| - 1 {
      HitsPositive(c[..|c| - 1], vs, i);
    }
  }

  /** Once the front is clean, everything to be dropped is at the back. */
  lemma AllBehind(first: Lit, d: seq<Lit>, nb: nat, dropped: set<Var>)
    requires Hits(d, dropped) == nb < |d| && first.v !in dropped && d[0] == first
    requires forall k :: 1 <= k < |d| - nb ==> d[k].v !in dropped
    ensures forall k :: |d| - nb <= k < |d| ==> d[k].v in dropped
  {
    var u, t := d[..|d| - nb], d[|d| - nb..];
    assert d == u + t;
    HitsAppend(u, t, dropped);
    HitsNone(u, dropped);
    HitsAll(t, dropped);
    forall k | |d| - nb <= k < |d| ensures d[k].v in dropped {
      assert t[k - (|d| - nb)] == d[k];
    }
  }

  lemma PartitionMembers(c: seq<Lit>, e: seq<Lit>, d: seq<Lit>, nb: nat, dropped: set<Var>)
    requires SameLits(c, e) && NoPair(e) && nb < |e| && e[0] == c[0] && d == e[..|e| - nb]
    requires c[0].v !in dropped
    requires forall k :: 1 <= k < |e| - nb ==> e[k].v !in dropped
    requires forall k :: |e| - nb <= k < |e| ==> e[k].v in dropped
    ensures d != [] && d[0] == c[0] && NoPair(d)
    ensures forall p :: p in d <==> p in c && p.v !in dropped
  {
    forall p ensures p in d <==> p in c && p.v !in dropped {
      if p in e && p.v !in dropped {
        var k :| 0 <= k < |e| && e[k] == p;
        assert d[k] == p;
      }
      if p in d {
        var k :| 0 <= k < |d| && d[k] == p;
        assert e[k] == p;
      }
    }
  }
}
