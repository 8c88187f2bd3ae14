/** Variable elimination and the buffer from which a model of the original clauses is rebuilt. */
module Reconstruction {
  import opened Sat
  import opened Resolution

  // ---------------------------------------------------------------- records

  /** A stored clause, the eliminated literal first. A record of length one gives the default value. */
  type Record = seq<Lit>

  function Codes(c: seq<Lit>): (r: seq<nat>)
    ensures |r| == |c|
  {
    seq(|c|, i requires 0 <= i < |c| => ToInt(c[i]))
  }

  /** The flat buffer: each record's literals followed by its length. */
  function Encode(recs: seq<Record>): seq<nat> {
    if recs == [] then []
    else
      var r := recs[|recs| - 1];
      Encode(recs[..|recs| - 1]) + Codes(r) + [|r|]
  }

  ghost predicate AllNonEmpty(recs: seq<Record>) {
    forall k :: 0 <= k < |recs| ==> recs[k] != []
  }

  lemma EncodePush(recs: seq<Record>, r: Record)
    ensures Encode(recs + [r]) == Encode(recs) + Codes(r) + [|r|]
  {
    assert (recs + [r])[..|recs|] == recs;
  }

  /** Read backwards, a buffer splits into its records in only one way. */
  lemma {:induction false} EncodeInjective(recs: seq<Record>, other: seq<Record>)
    requires AllNonEmpty(recs) && AllNonEmpty(other) && Encode(recs) == Encode(other)
    ensures recs == other
  {
    if recs != [] && other != [] {
      var m, n := |recs| - 1, |other| - 1;
      var e, r, t := Encode(recs), recs[m], other[n];
      assert e[|e| - 1] == |r| == |t|;
      assert Codes(r) == e[|e| - 1 - |r|..|e| - 1] == Codes(t);
      assert Encode(recs[..m]) == e[..|e| - 1 - |r|] == Encode(other[..n]);
      EncodeInjective(recs[..m], other[..n]);
      forall k | 0 <= k < |r| ensures r[k] == t[k] {
        assert Codes(r)[k] == Codes(t)[k];
        LitCoding(r[k], 0);
        LitCoding(t[k], 0);
      }
      assert r == t;
      assert recs == recs[..m] + [r] && other == other[..n] + [t];
    }
  }

  // ---------------------------------------------------------------- rebuilding a total assignment

  /** The assignment with p made true. */
  function MakeTrue(a: Model, p: Lit): Model {
    (x: Var) => if x == p.v then !p.neg else a(x)
  }

  /** Some literal after the first holds. */
  ghost predicate TailHolds(a: Model, r: Record) {
    exists k :: 1 <= k < |r| && Holds(a, r[k])
  }

  ghost function Apply(r: Record, a: Model): Model
    requires r != []
  {
    if TailHolds(a, r) then a else MakeTrue(a, r[0])
  }

  /** Apply the records from the newest to the oldest. */
  ghost function Rebuild(recs: seq<Record>, a: Model): Model
    requires AllNonEmpty(recs)
  {
    if recs == [] then a
    else Rebuild(recs[..|recs| - 1], Apply(recs[|recs| - 1], a))
  }

  lemma {:induction false} RebuildAppend(older: seq<Record>, newer: seq<Record>, a: Model)
    requires AllNonEmpty(older) && AllNonEmpty(newer)
    ensures AllNonEmpty(older + newer)
    ensures Rebuild(older + newer, a) == Rebuild(older, Rebuild(newer, a))
    decreases |newer|
  {
    var all := older + newer;
    if newer == [] {
      assert all == older;
    } else {
      var n := |newer| - 1;
      assert AllNonEmpty(newer[..n]) by {
        assert forall k :: 0 <= k < n ==> newer[..n][k] == newer[k];
      }
      RebuildAppend(older, newer[..n], Apply(newer[n], a));
      assert all[..|all| - 1] == older + newer[..n];
      assert all[|all| - 1] == newer[n];
    }
  }

  /** Only the head variables of records change. */
  lemma {:induction false} RebuildElsewhere(recs: seq<Record>, a: Model, x: Var)
    requires AllNonEmpty(recs) && forall k :: 0 <= k < |recs| ==> recs[k][0].v != x
    ensures Rebuild(recs, a)(x) == a(x)
  {
    if recs != [] {
      var n := |recs| - 1;
      RebuildElsewhere(recs[..n], Apply(recs[n], a), x);
    }
  }

  // ---------------------------------------------------------------- one elimination

  /** The records stored for the clauses cs, all containing ~x: that literal is swapped to the front. */
  ghost predicate SideRecords(recs: seq<Record>, cs: seq<seq<Lit>>, x: Lit) {
    && |recs| == |cs|
    && forall k :: 0 <= k < |recs| ==>
         && SameLits(recs[k], cs[k]) && NoPair(recs[k])
         && recs[k] != [] && recs[k][0] == Neg(x)
  }

  lemma {:induction false} RebuildSide(recs: seq<Record>, a: Model, x: Lit)
    requires AllNonEmpty(recs)
    requires forall k :: 0 <= k < |recs| ==> recs[k][0] == Neg(x) && NoPair(recs[k])
    ensures forall y :: y != x.v ==> Rebuild(recs, a)(y) == a(y)
    ensures Holds(Rebuild(recs, a), x) <==>
            Holds(a, x) && forall k :: 0 <= k < |recs| ==> TailHolds(a, recs[k])
  {
    if recs != [] {
      var n := |recs| - 1;
      var b := Apply(recs[n], a);
      RebuildSide(recs[..n], b, x);
      forall k | 0 <= k < |recs| ensures TailHolds(a, recs[k]) <==> TailHolds(b, recs[k]) {
        TailElsewhere(recs[k], a, b, x.v);
      }
      if Holds(a, x) && forall k :: 0 <= k < |recs| ==> TailHolds(a, recs[k]) {
        assert TailHolds(a, recs[n]);
        forall k | 0 <= k < n ensures TailHolds(b, recs[..n][k]) {
          assert TailHolds(a, recs[k]);
        }
      }
      if Holds(Rebuild(recs, a), x) {
        assert Holds(b, x);
        assert TailHolds(a, recs[n]) by {
          assert !Holds(MakeTrue(a, recs[n][0]), x);
        }
        forall k | 0 <= k < |recs| ensures TailHolds(a, recs[k]) {
          if k < n {
            assert TailHolds(b, recs[..n][k]);
          }
        }
      }
    }
  }

  lemma TailElsewhere(r: Record, a: Model, b: Model, v: Var)
    requires NoPair(r) && r != [] && r[0].v == v && forall y :: y != v ==> a(y) == b(y)
    ensures TailHolds(a, r) <==> TailHolds(b, r)
  {
    forall k | 1 <= k < |r| ensures Holds(a, r[k]) <==> Holds(b, r[k]) {
      assert r[0].v != r[k].v;
    }
  }

  /** The rebuilt value of the eliminated variable: its default, unless a stored clause needs the other. */
  lemma RebuildGroup(recs: seq<Record>, x: Lit, a: Model)
    requires AllNonEmpty(recs)
    requires forall k :: 0 <= k < |recs| ==> recs[k][0] == Neg(x) && NoPair(recs[k])
    ensures AllNonEmpty(recs + [[x]])
    ensures var b := Rebuild(recs + [[x]], a);
            && (forall y :: y != x.v ==> b(y) == a(y))
            && (Holds(b, x) <==> forall k :: 0 <= k < |recs| ==> TailHolds(a, recs[k]))
  {
    var b := MakeTrue(a, x);
    assert (recs + [[x]])[..|recs|] == recs;
    assert Apply([x], a) == b;
    RebuildSide(recs, b, x);
    assert Holds(b, x);
    forall k | 0 <= k < |recs| ensures TailHolds(a, recs[k]) <==> TailHolds(b, recs[k]) {
      TailElsewhere(recs[k], a, b, x.v);
    }
  }

  /** Every resolvent of a clause containing x with one containing ~x is a tautology or holds. */
  ghost predicate AllResolventsHold(a: Model, ps: seq<seq<Lit>>, ns: seq<seq<Lit>>, v: Var) {
    forall i, j :: 0 <= i < |ps| && 0 <= j < |ns| ==>
      Clash(ps[i], ns[j], v) || SatClause(a, Resolvent(ps[i], ns[j], v))
  }

  lemma ResolventSymmetric(a: Model, ps: seq<Lit>, ns: seq<Lit>, v: Var)
    requires NoPair(ps) && NoPair(ns)
    requires Clash(ps, ns, v) || SatClause(a, Resolvent(ps, ns, v))
    ensures Clash(ns, ps, v) || SatClause(a, Resolvent(ns, ps, v))
  {
    ClashSymmetric(ps, ns, v);
    if !Clash(ps, ns, v) {
      ResolventMembers(ps, ns, v);
      ResolventMembers(ns, ps, v);
      var p :| p in Resolvent(ps, ns, v) && Holds(a, p);
      assert p in Resolvent(ns, ps, v);
    }
  }

  /** Elimination is undone: if the resolvents hold, the rebuilt assignment satisfies both sides. */
  lemma EliminationUndone(recs: seq<Record>, x: Lit, ps: seq<seq<Lit>>, ns: seq<seq<Lit>>, a: Model)
    requires SideRecords(recs, ns, x)
    requires forall i :: 0 <= i < |ps| ==> NoPair(ps[i]) && x in ps[i]
    requires forall j :: 0 <= j < |ns| ==> NoPair(ns[j])
    requires AllResolventsHold(a, ps, ns, x.v)
    ensures AllNonEmpty(recs + [[x]])
    ensures var b := Rebuild(recs + [[x]], a);
            && (forall i :: 0 <= i < |ps| ==> SatClause(b, ps[i]))
            && (forall j :: 0 <= j < |ns| ==> SatClause(b, ns[j]))
            && (forall y :: y != x.v ==> b(y) == a(y))
  {
    RebuildGroup(recs, x, a);
    var b := Rebuild(recs + [[x]], a);
    forall j | 0 <= j < |ns| ensures SatClause(b, ns[j]) {
      StoredSideHolds(recs[j], ns[j], x, a, b);
    }
    forall i | 0 <= i < |ps| ensures SatClause(b, ps[i]) {
      if Holds(b, x) {
        assert x in ps[i];
      } else {
        var j :| 0 <= j < |recs| && !TailHolds(a, recs[j]);
        OtherSideHolds(recs[j], ps[i], ns[j], x, a, b);
      }
    }
  }

  lemma StoredSideHolds(r: Record, c: seq<Lit>, x: Lit, a: Model, b: Model)
    requires SameLits(r, c) && NoPair(r) && r != [] && r[0] == Neg(x)
    requires forall y :: y != x.v ==> b(y) == a(y)
    requires Holds(b, x) ==> TailHolds(a, r)
    ensures SatClause(b, c)
  {
    if TailHolds(a, r) {
      TailElsewhere(r, a, b, x.v);
      var k :| 1 <= k < |r| && Holds(b, r[k]);
      assert r[k] in c;
    } else {
      assert Holds(b, Neg(x)) && r[0] in c;
    }
  }

  lemma OtherSideHolds(r: Record, p: seq<Lit>, n: seq<Lit>, x: Lit, a: Model, b: Model)
    requires SameLits(r, n) && NoPair(r) && r != [] && r[0] == Neg(x) && !TailHolds(a, r)
    requires NoPair(p) && NoPair(n) && x in p
    requires Clash(p, n, x.v) || SatClause(a, Resolvent(p, n, x.v))
    requires forall y :: y != x.v ==> b(y) == a(y)
    ensures SatClause(b, p)
  {
    forall q | q in n && q.v != x.v ensures !Holds(a, q) {
      var k :| 0 <= k < |r| && r[k] == q;
    }
    if Clash(p, n, x.v) {
      var q :| q in p && Neg(q) in n && q.v != x.v;
      assert !Holds(a, Neg(q));
      assert Holds(b, q);
    } else {
      ResolventMembers(p, n, x.v);
      var q :| q in Resolvent(p, n, x.v) && Holds(a, q);
      assert q in p && Holds(b, q);
    }
  }

  // ---------------------------------------------------------------- rebuilding the solver's model

  /** Some literal after the first is not false in the partial assignment. */
  predicate TailNotFalse(m: seq<LBool>, r: Record) {
    exists k :: 1 <= k < |r| && !IsFalse(m, r[k])
  }

  function ValueOf(p: Lit): LBool {
    if p.neg then False else True
  }

  function ApplyPartial(r: Record, m: seq<LBool>): (e: seq<LBool>)
    requires r != []
    ensures |e| == |m|
  {
    if TailNotFalse(m, r) || r[0].v >= |m| then m else m[r[0].v := ValueOf(r[0])]
  }

  function Extend(recs: seq<Record>, m: seq<LBool>): (e: seq<LBool>)
    requires AllNonEmpty(recs)
    ensures |e| == |m|
  {
    if recs == [] then m
    else Extend(recs[..|recs| - 1], ApplyPartial(recs[|recs| - 1], m))
  }

  /** Reading backwards, every record mentions only variables that already have a value; a default gives one. */
  ghost predicate Settles(recs: seq<Record>, dom: set<Var>)
    requires AllNonEmpty(recs)
  {
    recs == [] ||
    (var r := recs[|recs| - 1];
     && (forall k :: 1 <= k < |r| ==> r[k].v in dom)
     && (|r| > 1 ==> r[0].v in dom)
     && Settles(recs[..|recs| - 1], dom + {r[0].v}))
  }

  function Heads(recs: seq<Record>): set<Var>
    requires AllNonEmpty(recs)
  {
    set k | 0 <= k < |recs| :: recs[k][0].v
  }

  lemma HeadsLast(recs: seq<Record>)
    requires AllNonEmpty(recs) && recs != []
    ensures Heads(recs) == Heads(recs[..|recs| - 1]) + {recs[|recs| - 1][0].v}
  {
    var n := |recs| - 1;
    forall x | x in Heads(recs) ensures x in Heads(recs[..n]) + {recs[n][0].v} {
      var k :| 0 <= k < |recs| && recs[k][0].v == x;
      if k < n {
        assert recs[..n][k][0].v == x;
      }
    }
    forall x | x in Heads(recs[..n]) ensures x in Heads(recs) {
      var k :| 0 <= k < n && recs[..n][k][0].v == x;
      assert recs[k][0].v == x;
    }
  }

  lemma {:induction false} SettlesMore(recs: seq<Record>, dom: set<Var>, more: set<Var>)
    requires AllNonEmpty(recs) && Settles(recs, dom) && dom <= more
    ensures Settles(recs, more)
  {
    if recs != [] {
      var n := |recs| - 1;
      SettlesMore(recs[..n], dom + {recs[n][0].v}, more + {recs[n][0].v});
    }
  }

  lemma {:induction false} SettlesAppend(older: seq<Record>, newer: seq<Record>, dom: set<Var>)
    requires AllNonEmpty(older) && AllNonEmpty(newer)
    requires Settles(newer, dom) && Settles(older, dom + Heads(newer))
    ensures AllNonEmpty(older + newer) && Settles(older + newer, dom)
    decreases |newer|
  {
    var all := older + newer;
    if newer == [] {
      assert all == older && dom + Heads(newer) == dom;
    } else {
      var n := |newer| - 1;
      assert all[..|all| - 1] == older + newer[..n] && all[|all| - 1] == newer[n];
      HeadsLast(newer);
      assert dom + Heads(newer) == dom + {newer[n][0].v} + Heads(newer[..n]);
      SettlesAppend(older, newer[..n], dom + {newer[n][0].v});
    }
  }

  /** The stored side of v followed by its default settles v, given the other variables. */
  lemma GroupSettles(recs: seq<Record>, x: Lit, dom: set<Var>)
    requires AllNonEmpty(recs)
    requires forall k, i :: 0 <= k < |recs| && 0 <= i < |recs[k]| ==> recs[k][i].v in dom + {x.v}
    requires forall k :: 0 <= k < |recs| ==> recs[k][0].v == x.v
    ensures AllNonEmpty(recs + [[x]])
    ensures Settles(recs + [[x]], dom) && Heads(recs + [[x]]) == {x.v}
  {
    var all: seq<Record> := recs + [[x]];
    SideSettles(recs, dom + {x.v});
    assert Settles(all, dom) by {
      assert all[..|all| - 1] == recs && all[|all| - 1] == [x];
    }
    hide Settles;
    GroupHeads(recs, x);
  }

  lemma GroupHeads(recs: seq<Record>, x: Lit)
    requires AllNonEmpty(recs) && forall k :: 0 <= k < |recs| ==> recs[k][0].v == x.v
    ensures AllNonEmpty(recs + [[x]]) && Heads(recs + [[x]]) == {x.v}
  {
    var all: seq<Record> := recs + [[x]];
    forall k | 0 <= k < |all| ensures all[k] != [] && all[k][0].v == x.v {
      if k < |recs| {
        assert all[k] == recs[k];
      }
    }
    assert all[|recs|][0].v in Heads(all);
  }

  lemma {:induction false} SideSettles(recs: seq<Record>, dom: set<Var>)
    requires AllNonEmpty(recs)
    requires forall k, i :: 0 <= k < |recs| && 0 <= i < |recs[k]| ==> recs[k][i].v in dom
    ensures Settles(recs, dom)
  {
    if recs != [] {
      var n := |recs| - 1;
      var r := recs[n];
      assert r[0].v in dom && dom + {r[0].v} == dom;
      forall k, i | 0 <= k < n && 0 <= i < |recs[..n][k]| ensures recs[..n][k][i].v in dom {
        assert recs[..n][k] == recs[k];
      }
      SideSettles(recs[..n], dom);
    }
  }

  /** The partial assignment says nothing different from the total one. */
  ghost predicate Agree(a: Model, m: seq<LBool>) {
    forall v :: 0 <= v < |m| && m[v] != Undef ==> m[v] == if a(v) then True else False
  }

  ghost predicate Defined(m: seq<LBool>, dom: set<Var>) {
    forall v :: v in dom ==> v < |m| && m[v] != Undef
  }

  lemma {:induction false} ExtendAgrees(recs: seq<Record>, m: seq<LBool>, a: Model, dom: set<Var>)
    requires AllNonEmpty(recs) && Settles(recs, dom) && Agree(a, m) && Defined(m, dom)
    requires forall x :: x in Heads(recs) ==> x < |m|
    ensures Agree(Rebuild(recs, a), Extend(recs, m)) && Defined(Extend(recs, m), dom + Heads(recs))
  {
    if recs == [] {
      assert dom + Heads(recs) == dom;
    } else {
      var n := |recs| - 1;
      var r := recs[n];
      HeadsLast(recs);
      assert r[0].v in Heads(recs);
      ApplyAgrees(r, m, a, dom);
      ExtendAgrees(recs[..n], ApplyPartial(r, m), Apply(r, a), dom + {r[0].v});
      assert dom + Heads(recs) == dom + {r[0].v} + Heads(recs[..n]);
    }
  }

  lemma ApplyAgrees(r: Record, m: seq<LBool>, a: Model, dom: set<Var>)
    requires r != [] && Agree(a, m) && Defined(m, dom) && r[0].v < |m|
    requires (forall k :: 1 <= k < |r| ==> r[k].v in dom) && (|r| > 1 ==> r[0].v in dom)
    ensures Agree(Apply(r, a), ApplyPartial(r, m)) && Defined(ApplyPartial(r, m), dom + {r[0].v})
  {
    forall k | 1 <= k < |r| ensures Holds(a, r[k]) <==> !IsFalse(m, r[k]) {
      assert r[k].v in dom;
    }
  }

  /** A variable that heads no record keeps its value. */
  lemma {:induction false} ExtendElsewhere(recs: seq<Record>, m: seq<LBool>, x: Var)
    requires AllNonEmpty(recs) && x < |m| && forall k :: 0 <= k < |recs| ==> recs[k][0].v != x
    ensures Extend(recs, m)[x] == m[x]
  {
    if recs != [] {
      var n := |recs| - 1;
      ExtendElsewhere(recs[..n], ApplyPartial(recs[n], m), x);
    }
  }
}
