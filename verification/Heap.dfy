/** The indexed binary heap. */
module IndexedHeap {
  import opened Sorting

  type Less = (nat, nat) -> bool

  function Left(i: int): int {
    2 * i + 1
  }

  function Right(i: int): int {
    (i + 1) * 2
  }

  function Parent(i: int): int {
    (i - 1) / 2
  }

  /** Position j does not come before its parent. */
  ghost predicate Good(h: seq<nat>, lt: Less, j: int)
    requires 0 <= j < |h|
  {
    j == 0 || !lt(h[j], h[Parent(j)])
  }

  /** Every position whose parent is at or after s is in order. */
  ghost predicate OrderedFrom(h: seq<nat>, lt: Less, s: nat) {
    forall j :: 0 < j < |h| && Parent(j) >= s ==> Good(h, lt, j)
  }

  ghost predicate Ordered(h: seq<nat>, lt: Less) {
    forall j :: 0 < j < |h| ==> Good(h, lt, j)
  }

  /** From s on the heap is in order but for the element at i, whose children are in order with its parent. */
  ghost predicate OrderedBut(h: seq<nat>, lt: Less, i: nat, s: nat) {
    && i < |h|
    && (forall j :: 0 < j < |h| && Parent(j) >= s && j != i && Parent(j) != i ==> Good(h, lt, j))
    && (i > 0 && Parent(i) >= s ==> forall j :: 0 < j < |h| && Parent(j) == i ==> !lt(h[j], h[Parent(i)]))
  }

  /** The children of i do not come before it. */
  ghost predicate ChildrenGood(h: seq<nat>, lt: Less, i: nat) {
    forall j :: 0 < j < |h| && Parent(j) == i ==> Good(h, lt, j)
  }

  /** `indices` is the inverse of `heap`; -1 marks what is not in the heap. */
  ghost predicate Inverse(h: seq<nat>, indices: seq<int>) {
    && (forall i :: 0 <= i < |h| ==> h[i] < |indices| && indices[h[i]] == i)
    && (forall n :: 0 <= n < |indices| ==> -1 <= indices[n] < |h| && (indices[n] >= 0 ==> h[indices[n]] == n))
  }

  ghost predicate SameElements(h: seq<nat>, g: seq<nat>) {
    |h| == |g| && forall n :: n in h <==> n in g
  }

  lemma AllOrdered(h: seq<nat>, lt: Less, i: nat)
    requires OrderedBut(h, lt, i, 0) && ChildrenGood(h, lt, i) && Good(h, lt, i)
    ensures Ordered(h, lt)
  {
  }

  /** The root comes first. */
  lemma {:induction false} RootFirst(h: seq<nat>, lt: Less, j: nat)
    requires Ordered(h, lt) && StrictWeakOrder(lt) && j < |h|
    ensures !lt(h[j], h[0])
  {
    if j > 0 {
      RootFirst(h, lt, Parent(j));
      assert Good(h, lt, j);
    }
  }

  /** The heap with x at the hole i, as percolation sees it. */
  function Filled(h: seq<nat>, i: nat, x: nat): seq<nat>
    requires i < |h|
  {
    h[i := x]
  }

  /** One step up: the parent moves into the hole. */
  lemma StepUp(h: seq<nat>, lt: Less, i: nat, x: nat)
    requires 0 < i < |h| && StrictWeakOrder(lt) && OrderedBut(Filled(h, i, x), lt, i, 0) && lt(x, h[Parent(i)])
    ensures var g := Filled(h[i := h[Parent(i)]], Parent(i), x);
            OrderedBut(g, lt, Parent(i), 0) && ChildrenGood(g, lt, Parent(i)) && SameElements(Filled(h, i, x), g)
  {
    var p := Parent(i);
    var f, g := Filled(h, i, x), Filled(h[i := h[p]], p, x);
    forall j | 0 < j < |g| && Parent(j) == p ensures Good(g, lt, j) {
      if j != i {
        assert Good(f, lt, j);
      }
    }
    forall j | 0 < j < |g| && j != p && Parent(j) != p ensures Good(g, lt, j) {
      if Parent(j) != i {
        assert Good(f, lt, j);
      } else {
        assert g[j] == f[j] && !lt(f[j], f[Parent(i)]);
      }
    }
    forall j | p > 0 && 0 < j < |g| && Parent(j) == p ensures !lt(g[j], g[Parent(p)]) {
      assert Good(f, lt, p);
      if j != i {
        assert Good(f, lt, j);
      }
    }
    Exchanged(f, g, i, p);
  }

  /** One step down: the smaller child moves into the hole. */
  lemma StepDown(h: seq<nat>, lt: Less, i: nat, x: nat, s: nat, child: nat)
    requires s <= i < |h| && StrictWeakOrder(lt) && OrderedBut(Filled(h, i, x), lt, i, s)
    requires i > 0 && Parent(i) >= s ==> Good(Filled(h, i, x), lt, i)
    requires 0 < child < |h| && Parent(child) == i && lt(h[child], x)
    requires forall j :: 0 < j < |h| && Parent(j) == i ==> !lt(h[j], h[child])
    ensures var g := Filled(h[i := h[child]], child, x);
            && OrderedBut(g, lt, child, s) && Good(g, lt, child) && SameElements(Filled(h, i, x), g)
  {
    var f, g := Filled(h, i, x), Filled(h[i := h[child]], child, x);
    forall j | 0 < j < |g| && Parent(j) >= s && j != child && Parent(j) != child ensures Good(g, lt, j) {
      if Parent(j) == i {
        assert g[j] == h[j];
      } else if j == i {
        assert !lt(f[child], f[Parent(i)]);
      } else {
        assert Good(f, lt, j);
      }
    }
    forall j | 0 < j < |g| && Parent(j) == child ensures !lt(g[j], g[Parent(child)]) {
      assert Good(f, lt, j);
    }
    Exchanged(f, g, i, child);
  }

  lemma Exchanged(f: seq<nat>, g: seq<nat>, i: nat, j: nat)
    requires i < |f| && j < |f| && g == f[i := f[j]][j := f[i]]
    ensures SameElements(f, g)
  {
    forall n | n in f ensures n in g {
      var k :| 0 <= k < |f| && f[k] == n;
      assert g[if k == i then j else if k == j then i else k] == n;
    }
    forall n | n in g ensures n in f {
      var k :| 0 <= k < |g| && g[k] == n;
      assert f[if k == i then j else if k == j then i else k] == n;
    }
  }

  /** Moving one element into the hole keeps the inverse up to the hole. */
  lemma MoveInverse(h: seq<nat>, indices: seq<int>, i: nat, j: nat, x: nat)
    requires i < |h| && j < |h| && i != j && x < |indices| && Inverse(Filled(h, i, x), indices[x := i])
    ensures h[j] < |indices|
    ensures Inverse(Filled(h[i := h[j]], j, x), indices[h[j] := i][x := j])
  {
    var f, a := Filled(h, i, x), indices[x := i];
    assert f[j] == h[j] && f[i] == x && a[f[j]] == j && h[j] != x;
    var g, b := Filled(h[i := h[j]], j, x), indices[h[j] := i][x := j];
    forall k | 0 <= k < |g| ensures g[k] < |b| && b[g[k]] == k {
      assert a[f[k]] == k;
    }
    forall n | 0 <= n < |b| ensures -1 <= b[n] < |g| && (b[n] >= 0 ==> g[b[n]] == n) {
      assert a[n] >= 0 ==> f[a[n]] == n;
    }
  }

  class Heap {
    var lt: Less
    var heap: seq<nat>
    var indices: seq<int>

    /** The element set is consistent, whatever the order. */
    ghost predicate Consistent()
      reads this
    {
      StrictWeakOrder(lt) && Inverse(heap, indices)
    }

    ghost predicate Valid()
      reads this
    {
      Consistent() && Ordered(heap, lt)
    }

    constructor (less: Less)
      requires StrictWeakOrder(less)
      ensures Valid() && heap == [] && lt == less
    {
      lt, heap, indices := less, [], [];
    }

    predicate InHeap(n: nat)
      reads this
    {
      n < |indices| && indices[n] >= 0
    }

    lemma Membership(n: nat)
      requires Inverse(heap, indices)
      ensures InHeap(n) <==> n in heap
    {
      if InHeap(n) {
        assert heap[indices[n]] == n;
      }
    }

    method PercolateUp(start: nat)
      requires Consistent() && OrderedBut(heap, lt, start, 0)
      modifies this`heap, this`indices
      ensures Consistent() && SameElements(old(heap), heap) && |indices| == |old(indices)|
      ensures var k := indices[old(heap[start])];
              && 0 <= k < |heap| && heap[k] == old(heap[start])
              && OrderedBut(heap, lt, k, 0) && Good(heap, lt, k)
              && (k != start || old(ChildrenGood(heap, lt, start)) ==> ChildrenGood(heap, lt, k))
    {
      var i: nat := start;
      var x := heap[i];
      hide OrderedBut, ChildrenGood, Inverse;
      var p := Parent(i);
      InverseAt(heap, indices, i);
      while i != 0 && lt(x, heap[p])
        invariant i < |heap| == |old(heap)| && p == Parent(i) && x < |indices| == |old(indices)|
        invariant Inverse(Filled(heap, i, x), indices[x := i]) && SameElements(old(heap), Filled(heap, i, x))
        invariant OrderedBut(Filled(heap, i, x), lt, i, 0)
        invariant i != start || old(ChildrenGood(heap, lt, start)) ==> ChildrenGood(Filled(heap, i, x), lt, i)
        invariant i == start ==> Filled(heap, i, x) == old(heap)
      {
        StepUp(heap, lt, i, x);
        MoveInverse(heap, indices, i, p, x);
        ghost var f := Filled(heap, i, x);
        var y := heap[p];
        heap := heap[i := y];
        indices := indices[y := i];
        i := p;
        p := Parent(p);
        SameTransitive(old(heap), f, Filled(heap, i, x));
      }
      assert Good(heap[i := x], lt, i);
      heap := heap[i := x];
      indices := indices[x := i];
    }

    method PercolateDown(start: nat, ghost s: nat)
      requires Consistent() && OrderedBut(heap, lt, start, s) && s <= start
      requires Parent(start) >= s ==> Good(heap, lt, start)
      modifies this`heap, this`indices
      ensures Consistent() && SameElements(old(heap), heap) && |indices| == |old(indices)|
      ensures OrderedFrom(heap, lt, s)
    {
      var i: nat := start;
      var x := heap[i];
      hide OrderedBut, Inverse;
      InverseAt(heap, indices, i);
      while Left(i) < |heap|
        invariant s <= i < |heap| == |old(heap)| && x < |indices| == |old(indices)|
        invariant Inverse(Filled(heap, i, x), indices[x := i]) && SameElements(old(heap), Filled(heap, i, x))
        invariant OrderedBut(Filled(heap, i, x), lt, i, s)
        invariant Parent(i) >= s ==> Good(Filled(heap, i, x), lt, i)
        decreases |heap| - i
      {
        var child: nat := if Right(i) < |heap| && lt(heap[Right(i)], heap[Left(i)]) then Right(i) else Left(i);
        if !lt(heap[child], x) {
          break;
        }
        StepDown(heap, lt, i, x, s, child);
        MoveInverse(heap, indices, i, child, x);
        ghost var f := Filled(heap, i, x);
        heap := heap[i := heap[child]];
        indices := indices[heap[i] := i];
        i := child;
        SameTransitive(old(heap), f, Filled(heap, i, x));
      }
      DownDone(Filled(heap, i, x), lt, i, s);
      heap := heap[i := x];
      indices := indices[x := i];
    }

    /** The key of n became smaller. */
    method Decrease(n: nat)
      requires Consistent() && InHeap(n)
      requires OrderedBut(heap, lt, indices[n], 0) && ChildrenGood(heap, lt, indices[n])
      modifies this`heap, this`indices
      ensures Valid() && SameElements(old(heap), heap)
    {
      PercolateUp(indices[n]);
      AllOrdered(heap, lt, indices[n]);
    }

    /** The key of n became larger. */
    method Increase(n: nat)
      requires Consistent() && InHeap(n)
      requires OrderedBut(heap, lt, indices[n], 0) && Good(heap, lt, indices[n])
      modifies this`heap, this`indices
      ensures Valid() && SameElements(old(heap), heap)
    {
      PercolateDown(indices[n], 0);
      FromZero(heap, lt);
    }

    /** Insert n, or restore the order after any change to its key. */
    method Update(n: nat)
      requires Consistent()
      requires if InHeap(n) then OrderedBut(heap, lt, indices[n], 0) else Ordered(heap, lt)
      modifies this`heap, this`indices
      ensures Valid() && InHeap(n) && forall m :: m in heap <==> m in old(heap) || m == n
    {
      Membership(n);
      if !InHeap(n) {
        Insert(n);
      } else {
        PercolateUp(indices[n]);
        PercolateDown(indices[n], 0);
        FromZero(heap, lt);
      }
      Membership(n);
    }

    /** After any change that concerns only n, one update restores the order. */
    method ChangeKey(n: nat, less: Less)
      requires Valid() && InHeap(n) && StrictWeakOrder(less)
      requires forall x: nat, y: nat :: x != n && y != n ==> less(x, y) == lt(x, y)
      modifies this
      ensures Valid() && lt == less && forall m :: m in heap <==> m in old(heap)
    {
      KeyChanged(heap, indices, lt, less, n);
      Membership(n);
      lt := less;
      Update(n);
    }

    method Insert(n: nat)
      requires Valid() && !InHeap(n)
      modifies this`heap, this`indices
      ensures Valid() && |heap| == |old(heap)| + 1 && forall m :: m in heap <==> m in old(heap) || m == n
    {
      hide StrictWeakOrder;
      GrowTo(n + 1);
      Membership(n);
      AppendOrdered(heap, lt, n);
      AppendInverse(heap, indices, n);
      indices := indices[n := |heap|];
      heap := heap + [n];
      ghost var h := heap;
      PercolateUp(indices[n]);
      AllOrdered(heap, lt, indices[n]);
      assert forall m :: m in heap <==> m in h;
    }

    method GrowTo(size: nat)
      requires Consistent()
      modifies this`indices
      ensures Consistent() && |indices| >= size && old(indices) <= indices
      ensures forall n: nat :: InHeap(n) <==> old(InHeap(n))
    {
      while |indices| < size
        invariant Consistent() && old(indices) <= indices
        invariant forall n: nat :: n < |indices| && indices[n] >= 0 <==> old(InHeap(n))
      {
        indices := indices + [-1];
      }
    }

    /** Take out an element that no other precedes. */
    method RemoveMin() returns (x: nat)
      requires Valid() && heap != []
      modifies this`heap, this`indices
      ensures Valid() && |heap| == |old(heap)| - 1
      ensures x in old(heap) && forall m :: m in old(heap) ==> !lt(m, x)
      ensures forall m :: m in heap <==> m in old(heap) && m != x
    {
      hide StrictWeakOrder;
      x := heap[0];
      Roots(heap, lt);
      ghost var h := heap;
      RemoveRoot(heap, indices, lt);
      var last := heap[|heap| - 1];
      heap := heap[0 := last];
      indices := indices[heap[0] := 0];
      indices := indices[x := -1];
      heap := heap[..|heap| - 1];
      ghost var g := heap;
      if |heap| > 1 {
        PercolateDown(0, 0);
        FromZero(heap, lt);
      }
      assert forall m :: m in heap <==> m in g;
    }

    /** Start again with the elements of ns. */
    method Build(ns: seq<nat>)
      requires Consistent() && (forall i :: 0 <= i < |ns| ==> ns[i] < |indices|)
      requires forall i, j :: 0 <= i < j < |ns| ==> ns[i] != ns[j]
      modifies this`heap, this`indices
      ensures Valid() && SameElements(ns, heap) && |indices| == |old(indices)|
    {
      hide StrictWeakOrder;
      Clear();
      Fill(ns);
      var i: int := |heap| / 2 - 1;
      LeavesOrdered(heap, lt);
      while i >= 0
        invariant -1 <= i < |heap| && Consistent() && SameElements(ns, heap) && |indices| == |old(indices)|
        invariant OrderedFrom(heap, lt, i + 1)
        decreases i
      {
        PercolateDown(i, i);
        i := i - 1;
      }
      FromZero(heap, lt);
    }

    method Fill(ns: seq<nat>)
      requires Consistent() && heap == [] && (forall i :: 0 <= i < |ns| ==> ns[i] < |indices|)
      requires forall i, j :: 0 <= i < j < |ns| ==> ns[i] != ns[j]
      modifies this`heap, this`indices
      ensures Consistent() && heap == ns && |indices| == |old(indices)|
    {
      var i := 0;
      while i < |ns|
        invariant 0 <= i <= |ns| && heap == ns[..i] && |indices| == |old(indices)| && Consistent()
      {
        assert ns[..i + 1] == ns[..i] + [ns[i]];
        indices := indices[ns[i] := i];
        heap := heap + [ns[i]];
        i := i + 1;
      }
    }

    method Clear()
      requires Consistent()
      modifies this`heap, this`indices
      ensures Consistent() && heap == [] && |indices| == |old(indices)|
    {
      var i := 0;
      while i < |heap|
        invariant 0 <= i <= |heap| && heap == old(heap) && |indices| == |old(indices)|
        invariant forall k :: 0 <= k < i ==> indices[heap[k]] == -1
        invariant forall n :: 0 <= n < |indices| ==>
                    indices[n] == -1 || (indices[n] == old(indices)[n] && indices[n] >= i)
      {
        indices := indices[heap[i] := -1];
        i := i + 1;
      }
      heap := [];
    }
  }

  lemma InverseAt(h: seq<nat>, indices: seq<int>, i: nat)
    requires Inverse(h, indices) && i < |h|
    ensures h[i] < |indices| && indices[h[i] := i] == indices && Filled(h, i, h[i]) == h
  {
  }

  lemma SameTransitive(f: seq<nat>, g: seq<nat>, h: seq<nat>)
    requires SameElements(f, g) && SameElements(g, h)
    ensures SameElements(f, h)
  {
  }

  /** When the element at i has no smaller child, all is in order. */
  lemma DownDone(h: seq<nat>, lt: Less, i: nat, s: nat)
    requires OrderedBut(h, lt, i, s) && StrictWeakOrder(lt) && (Parent(i) >= s ==> Good(h, lt, i))
    requires Left(i) < |h| ==>
               var child := if Right(i) < |h| && lt(h[Right(i)], h[Left(i)]) then Right(i) else Left(i);
               !lt(h[child], h[i])
    ensures OrderedFrom(h, lt, s)
  {
    forall j | 0 < j < |h| && Parent(j) >= s ensures Good(h, lt, j) {
      if Parent(j) == i {
        assert j == Left(i) || j == Right(i);
      }
    }
  }

  lemma FromZero(h: seq<nat>, lt: Less)
    requires OrderedFrom(h, lt, 0)
    ensures Ordered(h, lt)
  {
  }

  lemma AppendOrdered(h: seq<nat>, lt: Less, n: nat)
    requires Ordered(h, lt)
    ensures OrderedBut(h + [n], lt, |h|, 0) && ChildrenGood(h + [n], lt, |h|)
  {
    forall j | 0 < j < |h| ensures Good(h + [n], lt, j) {
      assert Good(h, lt, j);
    }
  }

  lemma AppendInverse(h: seq<nat>, indices: seq<int>, n: nat)
    requires Inverse(h, indices) && n < |indices| && n !in h
    ensures Inverse(h + [n], indices[n := |h|])
  {
  }

  lemma Roots(h: seq<nat>, lt: Less)
    requires Ordered(h, lt) && StrictWeakOrder(lt) && h != []
    ensures forall m :: m in h ==> !lt(m, h[0])
  {
    forall m | m in h ensures !lt(m, h[0]) {
      var j :| 0 <= j < |h| && h[j] == m;
      RootFirst(h, lt, j);
    }
  }

  /** With the last element at the root, only the root may be out of order. */
  lemma RemoveRoot(h: seq<nat>, indices: seq<int>, lt: Less)
    requires Ordered(h, lt) && Inverse(h, indices) && h != []
    ensures var n, x := |h| - 1, h[0];
            var g := h[0 := h[n]][..n];
            && h[n] < |indices| && x < |indices|
            && Inverse(g, indices[h[n] := 0][x := -1])
            && (n > 0 ==> OrderedBut(g, lt, 0, 0)) && (n <= 1 ==> Ordered(g, lt))
            && forall m :: m in g <==> m in h && m != x
  {
    var n, x := |h| - 1, h[0];
    var g := h[0 := h[n]][..n];
    forall j | 0 < j < |g| && Parent(j) != 0 ensures Good(g, lt, j) {
      assert Good(h, lt, j);
    }
    forall m | m in h && m != x ensures m in g {
      var k :| 0 <= k < |h| && h[k] == m;
      assert g[if k == n then 0 else k] == m;
    }
    forall m | m in g ensures m in h && m != x {
      var k :| 0 <= k < |g| && g[k] == m;
      assert indices[h[0]] == 0;
    }
  }

  lemma LeavesOrdered(h: seq<nat>, lt: Less)
    ensures OrderedFrom(h, lt, |h| / 2)
  {
  }

  /** An order that differs only where n is concerned leaves at most n out of place. */
  lemma KeyChanged(h: seq<nat>, indices: seq<int>, lt: Less, less: Less, n: nat)
    requires Ordered(h, lt) && StrictWeakOrder(lt) && Inverse(h, indices) && n < |indices| && indices[n] >= 0
    requires forall x: nat, y: nat :: x != n && y != n ==> less(x, y) == lt(x, y)
    ensures OrderedBut(h, less, indices[n], 0)
  {
    var i := indices[n];
    forall j | 0 < j < |h| && j != i && Parent(j) != i ensures Good(h, less, j) {
      assert Good(h, lt, j);
      assert indices[h[j]] == j && indices[h[Parent(j)]] == Parent(j);
    }
    if i > 0 {
      forall j | 0 < j < |h| && Parent(j) == i ensures !less(h[j], h[Parent(i)]) {
        assert Good(h, lt, j) && Good(h, lt, i);
        assert indices[h[j]] == j && indices[h[Parent(i)]] == Parent(i);
      }
    }
  }
}
