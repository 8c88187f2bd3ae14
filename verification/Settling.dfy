/** What backward subsumption has achieved when its queue is used up. */
module Settling {
  import opened Sat
  import opened Resolution
  import opened SimpState
  import opened Elimination

  /** From ca to cb clauses have been deleted or shortened, and every shortened one is queued. */
  ghost predicate Shrunk(ca: Pool, cb: Pool, queue: seq<CRef>) {
    |cb| == |ca| && forall d :: Problem(cb, d) ==>
      Problem(ca, d) && (SameLits(ca[d].lits, cb[d].lits) || (d in queue && Shorter(ca[d].lits, cb[d].lits)))
  }

  /** d is c without some of its literals. */
  ghost predicate Shorter(c: seq<Lit>, d: seq<Lit>) {
    |d| < |c| && forall p :: p in d ==> p in c
  }

  lemma ShrunkReflexive(ca: Pool, queue: seq<CRef>)
    ensures Shrunk(ca, ca, queue)
  {
  }

  lemma ShrunkTransitive(ca: Pool, cb: Pool, cc: Pool, q: seq<CRef>, q': seq<CRef>)
    requires Shrunk(ca, cb, q) && Shrunk(cb, cc, q') && q <= q'
    ensures Shrunk(ca, cc, q')
  {
    forall d | Problem(cc, d)
      ensures SameLits(ca[d].lits, cc[d].lits) || (d in q' && Shorter(ca[d].lits, cc[d].lits))
    {
      assert Problem(cb, d) && Problem(ca, d);
    }
  }

  /** Changing one clause: it is gone, or shortened and queued. */
  lemma ShrunkOne(ca: Pool, cb: Pool, d: CRef, queue: seq<CRef>)
    requires Others(ca, cb, d)
    requires Problem(cb, d) ==> d in queue && Shorter(ca[d].lits, cb[d].lits)
    ensures Shrunk(ca, cb, queue)
  {
  }

  lemma ErasedShorter(c: seq<Lit>, x: Lit)
    requires x in c
    ensures Shorter(c, Erased(c, x))
  {
    ErasedMember(c, x);
  }

  /** The clause c neither subsumes another nor resolves a literal out of it, if that was short enough at first. */
  ghost predicate Quiet(ca0: Pool, ca: Pool, c: CRef, lim: int) {
    forall d :: Problem(ca, d) && d != c && 0 <= d < |ca0| && (lim == -1 || |ca0[d].lits| < lim) ==>
      0 <= c < |ca| && Relates(ca[c].lits, ca[d].lits, Unrelated)
  }

  /** Shortening a clause creates no new relation to it. */
  lemma UnrelatedShorter(c: seq<Lit>, d: seq<Lit>, c': seq<Lit>, d': seq<Lit>)
    requires Relates(c, d, Unrelated) && SameLits(c, c') && forall p :: p in d' ==> p in d
    ensures Relates(c', d', Unrelated)
  {
    var p :| p in c && p !in d;
    assert p in c' && p !in d';
    forall x | x in c' && Neg(x) in d' ensures !InBut(c', d', x) {
      assert x in c && Neg(x) in d;
      var k :| 0 <= k < |c| && c[k] != x && c[k] !in d;
      assert c[k] in c';
    }
  }

  lemma QuietKept(ca0: Pool, ca: Pool, cb: Pool, c: CRef, lim: int, queue: seq<CRef>)
    requires Quiet(ca0, ca, c, lim) && Shrunk(ca, cb, queue) && 0 <= c < |ca| && SameLits(ca[c].lits, cb[c].lits)
    ensures Quiet(ca0, cb, c, lim)
  {
    forall d | Problem(cb, d) && d != c && 0 <= d < |ca0| && (lim == -1 || |ca0[d].lits| < lim)
      ensures Relates(cb[c].lits, cb[d].lits, Unrelated)
    {
      assert Problem(ca, d);
      UnrelatedShorter(ca[c].lits, ca[d].lits, cb[c].lits, cb[d].lits);
    }
  }

  /** A clause just compared with all others is quiet. */
  lemma QuietFresh(ca0: Pool, ca: Pool, c: CRef, lim: int)
    requires 0 <= c < |ca| && forall d :: Problem(ca, d) ==> Settled(ca, c, d, lim)
    requires forall d :: Problem(ca, d) ==> Problem(ca0, d) && |ca[d].lits| <= |ca0[d].lits|
    ensures Quiet(ca0, ca, c, lim)
  {
    forall d | Problem(ca, d) && d != c && 0 <= d < |ca0| && (lim == -1 || |ca0[d].lits| < lim)
      ensures Relates(ca[c].lits, ca[d].lits, Unrelated)
    {
      assert Settled(ca, c, d, lim);
    }
  }

  /** From ca0 to ca clauses have at most been deleted or shortened. */
  ghost predicate NoneGrown(ca0: Pool, ca: Pool) {
    |ca| == |ca0| && forall c :: Problem(ca, c) ==> Problem(ca0, c) && |ca[c].lits| <= |ca0[c].lits|
  }

  /**
   * During a run that started with the pool ca0 and the queue q0: no clause has grown, and every clause that was queued
   * at first or has been shortened since is quiet or still queued.
   */
  ghost predicate Tracked(ca0: Pool, q0: seq<CRef>, ca: Pool, queue: seq<CRef>, lim: int) {
    && NoneGrown(ca0, ca)
    && forall c :: Problem(ca, c) && (c in q0 || |ca[c].lits| < |ca0[c].lits|) ==> c in queue || Quiet(ca0, ca, c, lim)
  }

  lemma TrackStart(ca0: Pool, q0: seq<CRef>, lim: int)
    ensures Tracked(ca0, q0, ca0, q0, lim)
  {
  }

  /** One clause is taken off the queue and, unless it is gone, compared with all others. */
  lemma TrackStep(ca0: Pool, q0: seq<CRef>, ca: Pool, queue: seq<CRef>, cb: Pool, queue': seq<CRef>, lim: int)
    requires Tracked(ca0, q0, ca, queue, lim) && queue != [] && queue[1..] <= queue' && Shrunk(ca, cb, queue')
    requires Problem(ca, queue[0]) ==> forall d :: Problem(cb, d) ==> Settled(cb, queue[0], d, lim)
    ensures Tracked(ca0, q0, cb, queue', lim)
  {
    forall c | Problem(cb, c) ensures Problem(ca0, c) && |cb[c].lits| <= |ca0[c].lits| {
      assert Problem(ca, c);
    }
    assert queue == [queue[0]] + queue[1..];
    hide Settled, Quiet, Shorter, SameLits;
    forall c | Problem(cb, c) && (c in q0 || |cb[c].lits| < |ca0[c].lits|) && c !in queue'
      ensures Quiet(ca0, cb, c, lim)
    {
      assert Problem(ca, c) && SameLits(ca[c].lits, cb[c].lits);
      assert c !in queue[1..];
      SameLength(ca[c].lits, cb[c].lits);
      if c == queue[0] {
        QuietFresh(ca0, cb, c, lim);
      } else {
        QuietKept(ca0, ca, cb, c, lim, queue');
      }
    }
  }

  lemma SameLength(c: seq<Lit>, d: seq<Lit>)
    requires SameLits(c, d)
    ensures |c| == |d|
  {
  }

  /** No clause that was short enough at first mentions the variable of any of these facts. */
  ghost predicate FactsGone(ca0: Pool, ca: Pool, facts: seq<Lit>, lim: int) {
    forall p, d :: p in facts && Problem(ca, d) && 0 <= d < |ca0| && (lim == -1 || |ca0[d].lits| < lim) ==>
      p.v !in VarsOf(ca[d].lits)
  }

  lemma FactsGoneKept(ca0: Pool, ca: Pool, cb: Pool, facts: seq<Lit>, lim: int, queue: seq<CRef>)
    requires FactsGone(ca0, ca, facts, lim) && Shrunk(ca, cb, queue)
    ensures FactsGone(ca0, cb, facts, lim)
  {
    forall p, d | p in facts && Problem(cb, d) && 0 <= d < |ca0| && (lim == -1 || |ca0[d].lits| < lim)
      ensures p.v !in VarsOf(cb[d].lits)
    {
      assert Problem(ca, d);
      assert p.v !in VarsOf(ca[d].lits);
    }
  }

  /** The scratch clause for a fact is quiet only if the variable of the fact occurs nowhere. */
  lemma QuietFact(ca0: Pool, ca: Pool, l: Lit, lim: int)
    requires |ca| > 0 && SameLits([l], ca[TMP].lits) && Quiet(ca0, ca, TMP, lim)
    ensures FactsGone(ca0, ca, [l], lim)
  {
    forall d | Problem(ca, d) && 0 <= d < |ca0| && (lim == -1 || |ca0[d].lits| < lim)
      ensures l.v !in VarsOf(ca[d].lits)
    {
      var c, e := ca[TMP].lits, ca[d].lits;
      assert Relates(c, e, Unrelated);
      assert l in [l] && l in c;
      assert forall p :: p in c ==> p in [l];
      if exists p :: p in e && p.v == l.v {
        var p :| p in e && p.v == l.v;
        assert p == l || p == Neg(l);
        assert InBut(c, e, l);
      }
    }
  }

  lemma NoFacts(ca0: Pool, ca: Pool, lim: int)
    ensures FactsGone(ca0, ca, [], lim)
  {
  }

  /** Overwriting the scratch clause disturbs nothing. */
  lemma TrackFact(ca0: Pool, q0: seq<CRef>, ca: Pool, cb: Pool, facts: seq<Lit>, lim: int)
    requires Tracked(ca0, q0, ca, [], lim) && FactsGone(ca0, ca, facts, lim)
    requires |ca| > 0 && |cb| > 0 && cb == ca[TMP := cb[TMP]]
    ensures Tracked(ca0, q0, cb, [TMP], lim) && FactsGone(ca0, cb, facts, lim)
  {
    hide Relates;
    assert forall c :: Problem(cb, c) <==> Problem(ca, c);
    forall c | Problem(cb, c) && (c in q0 || |cb[c].lits| < |ca0[c].lits|) ensures Quiet(ca0, cb, c, lim) {
      assert Quiet(ca0, ca, c, lim);
    }
  }

  /** One turn of the loop: the first clause of the queue, perhaps the scratch unit of a fact, has been dealt with. */
  lemma TrackNext(ca0: Pool, q0: seq<CRef>, s: Simp, t: Simp, facts: seq<Lit>, fact: seq<Lit>, lim: int)
    requires Tracked(ca0, q0, s.ca, s.queue, lim) && FactsGone(ca0, s.ca, facts, lim)
    requires s.queue != [] && s.queue[1..] <= t.queue && Shrunk(s.ca, t.ca, t.queue)
    requires var c := s.queue[0];
             && 0 <= c < |s.ca| && s.ca[c].mark <= 1
             && (s.ca[c].mark == 0 ==>
                   SameLits(s.ca[c].lits, t.ca[c].lits) && forall d :: Problem(t.ca, d) ==> Settled(t.ca, c, d, lim))
    requires fact == [] || (s.queue[0] == TMP && s.ca[TMP].mark == 0 && s.ca[TMP].lits == fact && |fact| == 1)
    ensures Tracked(ca0, q0, t.ca, t.queue, lim) && FactsGone(ca0, t.ca, facts + fact, lim)
  {
    hide Settled, Shrunk, SameLits, Quiet, Tracked, FactsGone;
    TrackStep(ca0, q0, s.ca, s.queue, t.ca, t.queue, lim);
    FactsGoneKept(ca0, s.ca, t.ca, facts, lim, t.queue);
    if fact != [] {
      TrackGrown(ca0, q0, s.ca, s.queue, lim);
      TrackGrown(ca0, q0, t.ca, t.queue, lim);
      QuietFresh(ca0, t.ca, TMP, lim);
      assert fact == [fact[0]];
      QuietFact(ca0, t.ca, fact[0], lim);
      FactsGoneJoin(ca0, t.ca, facts, fact, lim);
    } else {
      assert facts + fact == facts;
    }
  }

  lemma TrackGrown(ca0: Pool, q0: seq<CRef>, ca: Pool, queue: seq<CRef>, lim: int)
    requires Tracked(ca0, q0, ca, queue, lim)
    ensures NoneGrown(ca0, ca)
  {
  }

  lemma FactsGoneJoin(ca0: Pool, ca: Pool, facts: seq<Lit>, more: seq<Lit>, lim: int)
    requires FactsGone(ca0, ca, facts, lim) && FactsGone(ca0, ca, more, lim)
    ensures FactsGone(ca0, ca, facts + more, lim)
  {
  }

  /** What the whole run guarantees, besides keeping the models: nothing is left to subsume or to shorten. */
  ghost predicate Exhausted(ca0: Pool, q0: seq<CRef>, ca: Pool, lim: int) {
    forall c, d ::
      && Problem(ca, c) && Problem(ca, d) && c != d && c < |ca0| && d < |ca0|
      && (c in q0 || |ca[c].lits| < |ca0[c].lits|) && (lim == -1 || |ca0[d].lits| < lim) ==>
        Relates(ca[c].lits, ca[d].lits, Unrelated)
  }

  lemma TrackEnd(ca0: Pool, q0: seq<CRef>, ca: Pool, lim: int)
    requires Tracked(ca0, q0, ca, [], lim)
    ensures Exhausted(ca0, q0, ca, lim)
  {
    forall c, d |
      && Problem(ca, c) && Problem(ca, d) && c != d && c < |ca0| && d < |ca0|
      && (c in q0 || |ca[c].lits| < |ca0[c].lits|) && (lim == -1 || |ca0[d].lits| < lim)
      ensures Relates(ca[c].lits, ca[d].lits, Unrelated)
    {
      assert Quiet(ca0, ca, c, lim);
    }
  }

  /** A longer queue at the start makes for a stronger result. */
  lemma ExhaustedFewer(ca0: Pool, q0: seq<CRef>, q1: seq<CRef>, ca: Pool, lim: int)
    requires Exhausted(ca0, q1, ca, lim) && forall c :: c in q0 ==> c in q1
    ensures Exhausted(ca0, q0, ca, lim)
  {
  }

  /** The problem clause c mentions a touched variable. */
  ghost predicate Touches(ca: Pool, touched: seq<bool>, c: CRef) {
    Problem(ca, c) && exists p :: p in ca[c].lits && p.v < |touched| && touched[p.v]
  }

  // ---------------------------------------------------------------- new clauses

  /** The clauses from one index up to another are queued. */
  ghost predicate Queued(from: nat, to: nat, queue: seq<CRef>) {
    forall c :: from <= c < to ==> c in queue
  }

  lemma QueuedNone(n: nat, queue: seq<CRef>)
    ensures Queued(n, n, queue)
  {
  }

  lemma QueuedJoin(i: nat, j: nat, k: nat, q: seq<CRef>, q': seq<CRef>)
    requires Queued(i, j, q) && q <= q' && Queued(j, k, q')
    ensures Queued(i, k, q')
  {
    forall c | i <= c < k ensures c in q' {
      if c < j {
        assert c in q;
      }
    }
  }

  /** From ca to cb clauses have been added, all of them queued, and what is left of the others has kept its size. */
  ghost predicate Renewed(ca: Pool, cb: Pool, queue: seq<CRef>) {
    && |ca| <= |cb|
    && (forall d :: Problem(cb, d) && d < |ca| ==> Problem(ca, d) && |cb[d].lits| == |ca[d].lits|)
    && Queued(|ca|, |cb|, queue)
  }

  lemma GrownRenewed(s: Simp, t: Simp)
    requires Grown(s, t) && Queued(|s.ca|, |t.ca|, t.queue)
    ensures Renewed(s.ca, t.ca, t.queue)
  {
    forall d | Problem(t.ca, d) && d < |s.ca| ensures Problem(s.ca, d) && |t.ca[d].lits| == |s.ca[d].lits| {
      SameLength(s.ca[d].lits, t.ca[d].lits);
    }
  }

  lemma RenewedDeleted(ca: Pool, cb: Pool, cc: Pool, cls: seq<CRef>, queue: seq<CRef>)
    requires Renewed(ca, cb, queue) && DeletedAll(cb, cc, cls)
    ensures Renewed(ca, cc, queue)
  {
    forall d | Problem(cc, d) && d < |ca| ensures Problem(ca, d) && |cc[d].lits| == |ca[d].lits| {
      assert Problem(cb, d);
    }
  }

  /**
   * What elimination leaves behind: no new clause, and none that was queued before, subsumes or shortens another. The
   * limit on the size of candidates applies to what they were at first, and leaves the new clauses out.
   */
  ghost predicate Absorbed(ca0: Pool, q0: seq<CRef>, ca: Pool, lim: int) {
    forall c, d ::
      && Problem(ca, c) && Problem(ca, d) && c != d && (c in q0 || c >= |ca0|)
      && (lim == -1 || (d < |ca0| && |ca0[d].lits| < lim)) ==>
        Relates(ca[c].lits, ca[d].lits, Unrelated)
  }

  lemma RenewedAbsorbed(ca0: Pool, q0: seq<CRef>, ca1: Pool, q1: seq<CRef>, ca: Pool, lim: int)
    requires Renewed(ca0, ca1, q1) && q0 <= q1 && Exhausted(ca1, q1, ca, lim)
    requires NoneGrown(ca1, ca)
    ensures Absorbed(ca0, q0, ca, lim)
  {
    forall c, d |
      && Problem(ca, c) && Problem(ca, d) && c != d && (c in q0 || c >= |ca0|)
      && (lim == -1 || (d < |ca0| && |ca0[d].lits| < lim))
      ensures Relates(ca[c].lits, ca[d].lits, Unrelated)
    {
      assert c in q1;
      if d < |ca0| {
        assert Problem(ca1, d);
      }
    }
  }
}
