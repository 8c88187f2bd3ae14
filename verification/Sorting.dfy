/** The in-place quicksort with Hoare partition that the solvers use on their vectors. */
module Sorting {

  /** What a comparison must be for sorting by it to make sense. */
  ghost predicate StrictWeakOrder<T(!new)>(lt: (T, T) -> bool) {
    && (forall x :: !lt(x, x))
    && (forall x, y, z :: lt(x, y) && lt(y, z) ==> lt(x, z))
    && (forall x, y, z :: lt(x, z) ==> lt(x, y) || lt(y, z))
  }

  /** No element is less than an earlier one. */
  ghost predicate Sorted<T>(s: seq<T>, lt: (T, T) -> bool) {
    forall i, j :: 0 <= i < j < |s| ==> !lt(s[j], s[i])
  }

  /** Within lo..hi, u holds a rearrangement of w; elsewhere it is w. */
  ghost predicate Rearranged<T>(w: seq<T>, u: seq<T>, lo: nat, hi: nat)
    requires lo <= hi <= |w|
  {
    && |u| == |w| && multiset(u[lo..hi]) == multiset(w[lo..hi])
    && forall k :: 0 <= k < lo || hi <= k < |w| ==> u[k] == w[k]
  }

  method Exchange<T>(a: array<T>, lo: nat, i: nat, j: nat, hi: nat)
    requires lo <= i < hi <= a.Length && lo <= j < hi
    modifies a
    ensures a[i] == old(a[j]) && a[j] == old(a[i])
    ensures forall k :: 0 <= k < a.Length && k != i && k != j ==> a[k] == old(a[k])
    ensures Rearranged(old(a[..]), a[..], lo, hi)
  {
    ghost var w := a[..];
    a[i], a[j] := a[j], a[i];
    SwapRange(w, a[..], lo, i, j, hi);
  }

  lemma SwapRange<T>(w: seq<T>, u: seq<T>, lo: nat, i: nat, j: nat, hi: nat)
    requires lo <= i < hi <= |w| == |u| && lo <= j < hi && u[i] == w[j] && u[j] == w[i]
    requires forall k :: 0 <= k < |w| && k != i && k != j ==> u[k] == w[k]
    ensures Rearranged(w, u, lo, hi)
  {
    SwapMultiset(w[lo..hi], u[lo..hi], i - lo, j - lo);
  }

  /** Exchanging two elements keeps the multiset. */
  lemma SwapMultiset<T>(s: seq<T>, t: seq<T>, i: nat, j: nat)
    requires i < |s| && j < |s| == |t| && t[i] == s[j] && t[j] == s[i]
    requires forall k :: 0 <= k < |s| && k != i && k != j ==> t[k] == s[k]
    ensures multiset(t) == multiset(s)
  {
    var u := s[i := s[j]];
    assert multiset(u) == multiset(s) - multiset{s[i]} + multiset{s[j]};
    assert multiset(u[j := s[i]]) == multiset(u) - multiset{u[j]} + multiset{s[i]};
    assert t == u[j := s[i]];
  }

  method SelectionSort<T(!new)>(a: array<T>, lo: nat, hi: nat, lt: (T, T) -> bool)
    requires lo <= hi <= a.Length && StrictWeakOrder(lt)
    modifies a
    ensures Rearranged(old(a[..]), a[..], lo, hi) && Sorted(a[lo..hi], lt)
  {
    var i := lo;
    while i + 1 < hi
      invariant lo <= i && (i < hi || i == lo)
      invariant Rearranged(old(a[..]), a[..], lo, hi)
      invariant forall k, m :: lo <= k < i && k < m < hi ==> !lt(a[m], a[k])
      decreases hi - i
    {
      var best, j := i, i + 1;
      while j < hi
        invariant i <= best < j <= hi
        invariant forall m :: i <= m < j ==> !lt(a[m], a[best])
      {
        if lt(a[j], a[best]) {
          best := j;
        }
        j := j + 1;
      }
      Exchange(a, lo, i, best, hi);
      i := i + 1;
    }
  }

  /** Everything in s is at most p. */
  ghost predicate AllBelow<T>(s: seq<T>, p: T, lt: (T, T) -> bool) {
    forall k :: 0 <= k < |s| ==> !lt(p, s[k])
  }

  /** Everything in s is at least p. */
  ghost predicate AllAbove<T>(s: seq<T>, p: T, lt: (T, T) -> bool) {
    forall k :: 0 <= k < |s| ==> !lt(s[k], p)
  }

  /** Hoare's scheme: the scans stay inside the range, and both parts are non-empty. */
  method Partition<T(!new)>(a: array<T>, lo: nat, hi: nat, lt: (T, T) -> bool) returns (m: nat, ghost pivot: T)
    requires lo + 2 <= hi <= a.Length && StrictWeakOrder(lt)
    modifies a
    ensures lo < m < hi && Rearranged(old(a[..]), a[..], lo, hi)
    ensures AllBelow(a[lo..m], pivot, lt) && AllAbove(a[m..hi], pivot, lt)
  {
    var p := a[lo + (hi - lo) / 2];
    ghost var at: nat := lo + (hi - lo) / 2;
    var i: int, j: int := lo - 1, hi;
    while true
      invariant lo - 1 <= i < j <= hi && Rearranged(old(a[..]), a[..], lo, hi)
      invariant forall k :: lo <= k <= i ==> !lt(p, a[k])
      invariant forall k :: j <= k < hi ==> !lt(a[k], p)
      invariant i == lo - 1 <==> j == hi
      invariant if i == lo - 1 then at == lo + (hi - lo) / 2 && a[at] == p else i >= lo && j < hi
      decreases j - i
    {
      var i0, j0 := i, j;
      i := i + 1;
      while lt(a[i], p)
        invariant i0 < i && i <= (if i0 == lo - 1 then at else j0)
        invariant forall k :: lo <= k < i ==> !lt(p, a[k])
        decreases hi - i
      {
        i := i + 1;
      }
      j := j - 1;
      while lt(p, a[j])
        invariant j < j0 && j >= (if i0 == lo - 1 then at else i0) && j >= i - 1
        invariant forall k :: j < k < hi ==> !lt(a[k], p)
        decreases j
      {
        j := j - 1;
      }
      if i >= j {
        break;
      }
      Exchange(a, lo, i, j, hi);
    }
    m, pivot := i, p;
  }

  lemma MultisetBelow<T>(s: seq<T>, t: seq<T>, p: T, lt: (T, T) -> bool)
    requires multiset(s) == multiset(t)
    ensures AllBelow(s, p, lt) ==> AllBelow(t, p, lt)
    ensures AllAbove(s, p, lt) ==> AllAbove(t, p, lt)
  {
    forall k | 0 <= k < |t| ensures exists i :: 0 <= i < |s| && s[i] == t[k] {
      assert t[k] in multiset(t);
      assert t[k] in multiset(s);
    }
  }

  /** Two sorted parts around a pivot make a sorted whole. */
  lemma SortedJoin<T(!new)>(s: seq<T>, t: seq<T>, p: T, lt: (T, T) -> bool)
    requires StrictWeakOrder(lt) && Sorted(s, lt) && Sorted(t, lt)
    requires AllBelow(s, p, lt) && AllAbove(t, p, lt)
    ensures Sorted(s + t, lt)
  {
  }

  /** Splitting around a pivot and sorting both parts sorts the whole. */
  lemma JoinSortedParts<T(!new)>(w: seq<T>, u: seq<T>, u': seq<T>, z: seq<T>, lo: nat, m: nat, hi: nat, p: T,
                                 lt: (T, T) -> bool)
    requires lo <= m <= hi <= |w| && StrictWeakOrder(lt) && Rearranged(w, u, lo, hi)
    requires AllBelow(u[lo..m], p, lt) && AllAbove(u[m..hi], p, lt)
    requires Rearranged(u, u', lo, m) && Sorted(u'[lo..m], lt)
    requires Rearranged(u', z, m, hi) && Sorted(z[m..hi], lt)
    ensures Rearranged(w, z, lo, hi) && Sorted(z[lo..hi], lt)
  {
    hide StrictWeakOrder, Sorted, AllBelow, AllAbove;
    assert u'[m..hi] == u[m..hi] && z[lo..m] == u'[lo..m];
    assert u[lo..hi] == u[lo..m] + u[m..hi] && z[lo..hi] == z[lo..m] + z[m..hi];
    MultisetBelow(u[lo..m], z[lo..m], p, lt);
    MultisetBelow(u[m..hi], z[m..hi], p, lt);
    SortedJoin(z[lo..m], z[m..hi], p, lt);
  }

  /** Sort a[lo..hi] in place. */
  method Sort<T(!new)>(a: array<T>, lo: nat, hi: nat, lt: (T, T) -> bool)
    requires lo <= hi <= a.Length && StrictWeakOrder(lt)
    modifies a
    ensures Rearranged(old(a[..]), a[..], lo, hi) && Sorted(a[lo..hi], lt)
    decreases hi - lo
  {
    hide *;
    if hi - lo <= 15 {
      SelectionSort(a, lo, hi, lt);
    } else {
      ghost var w := a[..];
      var m, pivot := Partition(a, lo, hi, lt);
      ghost var u := a[..];
      assert a[lo..m] == u[lo..m] && a[m..hi] == u[m..hi];
      Sort(a, lo, m, lt);
      ghost var u' := a[..];
      assert a[lo..m] == u'[lo..m];
      Sort(a, m, hi, lt);
      assert a[m..hi] == a[..][m..hi] && a[lo..hi] == a[..][lo..hi];
      JoinSortedParts(w, u, u', a[..], lo, m, hi, pivot, lt);
    }
  }

  // ---------------------------------------------------------------- rearranging distinct elements

  lemma {:induction false} DistinctCount<T>(s: seq<T>)
    requires forall i, j :: 0 <= i < j < |s| ==> s[i] != s[j]
    ensures forall x :: multiset(s)[x] <= 1
  {
    if s != [] {
      var n := |s| - 1;
      DistinctCount(s[..n]);
      assert s == s[..n] + [s[n]];
      assert s[n] !in s[..n];
      assert s[n] !in multiset(s[..n]);
    }
  }

  lemma Twice<T>(s: seq<T>, i: nat, j: nat)
    requires i < j < |s| && s[i] == s[j]
    ensures multiset(s)[s[i]] >= 2
  {
    assert s == s[..i] + [s[i]] + s[i + 1..j] + [s[j]] + s[j + 1..];
  }

  /** A rearrangement of distinct elements is distinct. */
  lemma DistinctSame<T>(s: seq<T>, t: seq<T>)
    requires (forall i, j :: 0 <= i < j < |s| ==> s[i] != s[j]) && multiset(s) == multiset(t)
    ensures forall i, j :: 0 <= i < j < |t| ==> t[i] != t[j]
  {
    DistinctCount(s);
    forall i, j | 0 <= i < j < |t| ensures t[i] != t[j] {
      if t[i] == t[j] {
        Twice(t, i, j);
      }
    }
  }
}
