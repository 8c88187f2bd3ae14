/** Enumerating the k-subsets of n positions, and counting them. */
module SubsetEnumeration {

  /** The binomial coefficient. */
  function Choose(n: nat, k: nat): nat {
    if k == 0 then 1 else if n == 0 then 0 else Choose(n - 1, k) + Choose(n - 1, k - 1)
  }

  /** The size of the subset marked by s. */
  function Count(s: seq<bool>): nat {
    if s == [] then 0 else Count(s[..|s| - 1]) + if s[|s| - 1] then 1 else 0
  }

  /** The number of subsets of the same size before s, comparing the highest positions first. */
  function Rank(s: seq<bool>): nat {
    if s == [] then 0
    else
      var t := s[..|s| - 1];
      Rank(t) + if s[|s| - 1] then Choose(|t|, Count(t) + 1) else 0
  }

  function Fill(n: nat, b: bool): seq<bool> {
    seq(n, _ => b)
  }

  lemma {:induction false} ChooseMany(n: nat, k: nat)
    requires k > n
    ensures Choose(n, k) == 0
  {
    if n > 0 {
      ChooseMany(n - 1, k);
      ChooseMany(n - 1, k - 1);
    }
  }

  lemma {:induction false} CountBound(s: seq<bool>)
    ensures Count(s) <= |s|
  {
    if s != [] {
      CountBound(s[..|s| - 1]);
    }
  }

  /** Ranks are below the number of subsets ... */
  lemma {:induction false} RankBound(s: seq<bool>)
    ensures Rank(s) < Choose(|s|, Count(s))
  {
    if s != [] {
      var t := s[..|s| - 1];
      RankBound(t);
    }
  }

  /** ... and tell subsets of the same size apart. */
  lemma {:induction false} RankInjective(s: seq<bool>, t: seq<bool>)
    requires |s| == |t| && Count(s) == Count(t) && Rank(s) == Rank(t)
    ensures s == t
  {
    if s != [] {
      var n := |s| - 1;
      var s', t' := s[..n], t[..n];
      RankBound(s');
      RankBound(t');
      RankInjective(s', t');
      assert s == s' + [s[n]] && t == t' + [t[n]];
    }
  }

  lemma {:induction false} CountFill(n: nat, b: bool)
    ensures Count(Fill(n, b)) == if b then n else 0
  {
    if n > 0 {
      assert Fill(n, b)[..n - 1] == Fill(n - 1, b);
      CountFill(n - 1, b);
    }
  }

  lemma {:induction false} CountAppend(s: seq<bool>, t: seq<bool>)
    ensures Count(s + t) == Count(s) + Count(t)
    decreases |t|
  {
    if t == [] {
      assert s + t == s;
    } else {
      var n := |t| - 1;
      assert (s + t)[..|s + t| - 1] == s + t[..n];
      CountAppend(s, t[..n]);
    }
  }

  /** What follows adds the same to the rank of any prefix of given length and size. */
  lemma {:induction false} RankSuffix(s: seq<bool>, t: seq<bool>, rest: seq<bool>)
    requires |s| == |t| && Count(s) == Count(t)
    ensures Rank(t + rest) - Rank(s + rest) == Rank(t) - Rank(s)
    decreases |rest|
  {
    if rest == [] {
      assert s + rest == s && t + rest == t;
    } else {
      var n := |rest| - 1;
      assert (s + rest)[..|s + rest| - 1] == s + rest[..n];
      assert (t + rest)[..|t + rest| - 1] == t + rest[..n];
      RankSuffix(s, t, rest[..n]);
      CountAppend(s, rest[..n]);
      CountAppend(t, rest[..n]);
    }
  }

  /** All members at the bottom: the first subset. */
  lemma {:induction false} RankFirst(k: nat, a: nat)
    ensures Rank(Fill(k, true) + Fill(a, false)) == 0 && Count(Fill(k, true) + Fill(a, false)) == k
    decreases k + a
  {
    var s := Fill(k, true) + Fill(a, false);
    if a > 0 {
      assert s[..|s| - 1] == Fill(k, true) + Fill(a - 1, false);
      RankFirst(k, a - 1);
    } else if k > 0 {
      assert s[..|s| - 1] == Fill(k - 1, true) + Fill(0, false);
      RankFirst(k - 1, 0);
      ChooseMany(k - 1, k);
    }
  }

  /** All members at the top: the last subset. */
  lemma {:induction false} RankLast(a: nat, k: nat)
    ensures Rank(Fill(a, false) + Fill(k, true)) == Choose(a + k, k) - 1
    ensures Count(Fill(a, false) + Fill(k, true)) == k && Choose(a + k, k) > 0
    decreases a + k
  {
    var s := Fill(a, false) + Fill(k, true);
    if k > 0 {
      assert s[..|s| - 1] == Fill(a, false) + Fill(k - 1, true);
      RankLast(a, k - 1);
    } else if a > 0 {
      assert s[..|s| - 1] == Fill(a - 1, false) + Fill(0, true);
      RankLast(a - 1, 0);
    }
  }

  /** Moving the first movable member up and the lower ones to the bottom goes to the next rank. */
  lemma RankNext(a: nat, b: nat, rest: seq<bool>)
    requires b >= 1
    ensures var s := Fill(a, false) + Fill(b, true) + [false] + rest;
            var t := Fill(b - 1, true) + Fill(a + 1, false) + [true] + rest;
            Rank(t) == Rank(s) + 1 && Count(t) == Count(s) && |t| == |s|
  {
    var s, t := Fill(a, false) + Fill(b, true) + [false], Fill(b - 1, true) + Fill(a + 1, false) + [true];
    assert s[..|s| - 1] == Fill(a, false) + Fill(b, true);
    assert t[..|t| - 1] == Fill(b - 1, true) + Fill(a + 1, false);
    RankLast(a, b);
    RankFirst(b - 1, a + 1);
    RankSuffix(s, t, rest);
    CountAppend(s, rest);
    CountAppend(t, rest);
  }

  // ---------------------------------------------------------------- the walk of Comb

  /** The first k positions of the array are unmovable: no marked position is followed by an unmarked one. */
  ghost predicate Rising(s: seq<bool>, i: nat) {
    forall j :: 0 <= j && j + 1 < i && j + 1 < |s| ==> !s[j] || s[j + 1]
  }

  /** A sequence without a movable member is unmarked, then marked. */
  lemma {:induction false} RisingShape(s: seq<bool>)
    requires Rising(s, |s|)
    ensures Count(s) <= |s| && s == Fill(|s| - Count(s), false) + Fill(Count(s), true)
  {
    CountBound(s);
    if s != [] {
      var n := |s| - 1;
      var t := s[..n];
      RisingShape(t);
      assert s == t + [s[n]];
      assert n > 0 && t[n - 1] ==> s[n];
    }
  }

  /** Are the last k positions marked? */
  method HasDone(index: array<bool>, n: nat, k: nat) returns (done: bool)
    requires n == index.Length && k <= n
    ensures done <==> forall i :: n - k <= i < n ==> index[i]
  {
    var i: int := n - 1;
    while i >= n - k
      invariant n - k - 1 <= i < n && forall j :: i < j < n ==> index[j]
    {
      if !index[i] {
        return false;
      }
      i := i - 1;
    }
    done := true;
  }

  /** With k marked positions, the last k are marked only in the last subset. */
  lemma DoneIsLast(s: seq<bool>, k: nat)
    requires Count(s) == k <= |s| && forall i :: |s| - k <= i < |s| ==> s[i]
    ensures Rank(s) == Choose(|s|, k) - 1
  {
    var a := |s| - k;
    assert s == s[..a] + Fill(k, true);
    CountAppend(s[..a], Fill(k, true));
    CountFill(k, true);
    CountZero(s[..a]);
    RankLast(a, k);
  }

  lemma {:induction false} CountZero(s: seq<bool>)
    requires Count(s) == 0
    ensures s == Fill(|s|, false)
  {
    if s != [] {
      CountZero(s[..|s| - 1]);
      assert s == s[..|s| - 1] + [s[|s| - 1]];
    }
  }

  /** Otherwise some member can move. */
  lemma NotDoneMoves(s: seq<bool>, k: nat)
    requires Count(s) == k <= |s| && exists i :: |s| - k <= i < |s| && !s[i]
    ensures !Rising(s, |s|)
  {
    if Rising(s, |s|) {
      RisingShape(s);
    }
  }

  /** Move the lower members to the bottom. */
  method Compress(index: array<bool>, i: nat)
    requires i < index.Length
    modifies index
    ensures Count(old(index[..i])) <= i
    ensures index[..i] == Fill(Count(old(index[..i])), true) + Fill(i - Count(old(index[..i])), false)
    ensures forall k :: i <= k < index.Length ==> index[k] == old(index[k])
  {
    var count, j := 0, 0;
    ghost var s := index[..i];
    while j < i
      invariant 0 <= j <= i && count == Count(s[..j]) && count <= j
      invariant forall k :: 0 <= k < count ==> index[k]
      invariant forall k :: count <= k < j ==> !index[k]
      invariant forall k :: j <= k < index.Length ==> index[k] == old(index[k])
    {
      assert s[..j + 1][..j] == s[..j];
      if index[j] {
        index[j] := false;
        index[count] := true;
        count := count + 1;
      }
      j := j + 1;
    }
    assert s[..i] == s;
  }

  /** The first marked position followed by an unmarked one. */
  method FirstMovable(index: array<bool>) returns (i: nat)
    requires !Rising(index[..], index.Length)
    ensures i + 1 < index.Length && index[i] && !index[i + 1] && Rising(index[..i + 1], i + 1)
  {
    var n := index.Length;
    i := 0;
    while i < n - 1 && !(index[i] && !index[i + 1])
      invariant 0 <= i < n && Rising(index[..i + 1], i + 1)
    {
      i := i + 1;
    }
  }

  /** Below the first movable member, and with it, the marked positions come last. */
  lemma MovableShape(s: seq<bool>, i: nat)
    requires i + 1 < |s| && s[i] && !s[i + 1] && Rising(s[..i + 1], i + 1)
    ensures var b := Count(s[..i + 1]);
            && 1 <= b <= i + 1 && Count(s[..i]) == b - 1
            && s == Fill(i + 1 - b, false) + Fill(b, true) + [false] + s[i + 2..]
  {
    var t := s[..i + 1];
    RisingShape(t);
    assert t[..i] == s[..i];
    assert s == t + [s[i + 1]] + s[i + 2..];
  }

  /** One step of the walk: the next subset of the same size. */
  method Step(index: array<bool>)
    requires !Rising(index[..], index.Length)
    modifies index
    ensures Rank(index[..]) == old(Rank(index[..])) + 1 && Count(index[..]) == old(Count(index[..]))
  {
    hide Rank, Count, Rising;
    ghost var s := index[..];
    var i := FirstMovable(index);
    assert index[..i + 1] == s[..i + 1];
    MovableShape(s, i);
    ghost var b := Count(s[..i + 1]);
    index[i] := false;
    index[i + 1] := true;
    assert index[..i] == s[..i];
    Compress(index, i);
    ghost var low := index[..i];
    assert index[..] == low + [false] + [true] + s[i + 2..];
    assert low + [false] == Fill(b - 1, true) + Fill(i + 2 - b, false);
    RankNext(i + 1 - b, b, s[i + 2..]);
  }

  /** The visits are the subsets of ranks 0, 1, 2, ... */
  ghost predicate Walk(visits: seq<seq<bool>>, n: nat, k: nat) {
    forall j :: 0 <= j < |visits| ==> |visits[j]| == n && Count(visits[j]) == k && Rank(visits[j]) == j
  }

  lemma WalkPush(visits: seq<seq<bool>>, s: seq<bool>, n: nat, k: nat)
    requires (visits == [] || Walk(visits, n, k)) && |s| == n && Count(s) == k && Rank(s) == |visits|
    ensures Walk(visits + [s], n, k)
  {
    hide Count, Rank;
  }

  lemma WalkLast(visits: seq<seq<bool>>, n: nat, k: nat)
    requires Walk(visits, n, k) && visits != []
    ensures var s := visits[|visits| - 1]; |s| == n && Count(s) == k && Rank(s) == |visits| - 1
  {
  }

  /** The subset of the lowest k positions. */
  method FirstSubset(n: nat, k: nat) returns (index: array<bool>)
    requires k <= n
    ensures fresh(index) && index.Length == n && index[..] == Fill(k, true) + Fill(n - k, false)
  {
    index := new bool[n](i => false);
    var i := 0;
    while i < k
      invariant 0 <= i <= k && forall j :: 0 <= j < n ==> index[j] == (j < i)
    {
      index[i] := true;
      i := i + 1;
    }
  }

  /** `Comb`: visit subsets until all are done or the limit on patterns (two a visit) is reached. */
  method Comb(n: nat, k: nat, limit: int) returns (visits: seq<seq<bool>>)
    requires k <= n
    ensures Walk(visits, n, k) && |visits| >= 1
    ensures |visits| == Choose(n, k) || 2 * |visits| >= limit
    ensures |visits| <= Choose(n, k)
  {
    hide *;
    var index := FirstSubset(n, k);
    RankFirst(k, n - k);
    WalkPush([], index[..], n, k);
    visits := [] + [index[..]];
    var patternSize := 2;
    RankBound(index[..]);
    var done := HasDone(index, n, k);
    while !done
      invariant Walk(visits, n, k) && 1 <= |visits| <= Choose(n, k) && patternSize == 2 * |visits|
      invariant index[..] == visits[|visits| - 1]
      invariant done <==> forall i :: n - k <= i < n ==> index[i]
      decreases Choose(n, k) - |visits|
    {
      WalkLast(visits, n, k);
      NotDoneMoves(index[..], k);
      Step(index);
      RankBound(index[..]);
      if patternSize < limit {
        WalkPush(visits, index[..], n, k);
        visits := visits + [index[..]];
        patternSize := patternSize + 2;
      } else {
        return;
      }
      done := HasDone(index, n, k);
    }
    WalkLast(visits, n, k);
    DoneIsLast(index[..], k);
  }

  /** When the limit is not reached, every subset of the size is visited exactly once. */
  lemma EachVisitedOnce(visits: seq<seq<bool>>, n: nat, k: nat, s: seq<bool>)
    requires Walk(visits, n, k) && |visits| == Choose(n, k) && |s| == n && Count(s) == k
    ensures s in visits
    ensures forall i, j :: 0 <= i < |visits| && 0 <= j < |visits| && visits[i] == s == visits[j] ==> i == j
  {
    RankBound(s);
    RankInjective(s, visits[Rank(s)]);
  }

  // ---------------------------------------------------------------- counting by next_permutation

  function Reverse(s: seq<bool>): (r: seq<bool>)
    ensures |r| == |s|
  {
    seq(|s|, i requires 0 <= i < |s| => s[|s| - 1 - i])
  }

  /** The last unmarked position followed by a marked one, or -1. */
  method LastAscent(v: array<bool>) returns (i: int)
    ensures -1 <= i && (i >= 0 ==> i + 1 < v.Length && !v[i] && v[i + 1])
    ensures forall k :: i < k && k + 1 < v.Length ==> v[k] || !v[k + 1]
  {
    i := v.Length - 2;
    while i >= 0 && !(!v[i] && v[i + 1])
      invariant -2 <= i < v.Length && i + 1 <= v.Length
      invariant i + 1 == v.Length ==> i == -1
      invariant forall k :: i < k && k >= 0 && k + 1 < v.Length ==> v[k] || !v[k + 1]
    {
      i := i - 1;
    }
    if i < 0 {
      i := -1;
    }
  }

  method LastMarkedPosition(v: array<bool>, i: nat) returns (j: nat)
    requires i + 1 < v.Length && v[i + 1]
    ensures i < j < v.Length && v[j] && forall k :: j < k < v.Length ==> !v[k]
  {
    j := v.Length - 1;
    while !v[j]
      invariant i < j < v.Length && forall k :: j < k < v.Length ==> !v[k]
      decreases j
    {
      j := j - 1;
    }
  }

  method ReverseFrom(v: array<bool>, from: nat)
    requires from <= v.Length
    modifies v
    ensures v[..from] == old(v[..from]) && v[from..] == Reverse(old(v[from..]))
  {
    var lo: int, hi: int := from, v.Length - 1;
    while lo < hi
      invariant from <= lo && hi == v.Length - 1 + from - lo && hi >= lo - 1
      invariant forall k :: 0 <= k < from ==> v[k] == old(v[k])
      invariant forall k :: lo <= k <= hi ==> v[k] == old(v[k])
      invariant forall k :: from <= k < lo || hi < k < v.Length ==> v[k] == old(v[v.Length - 1 + from - k])
    {
      v[lo], v[hi] := v[hi], v[lo];
      lo, hi := lo + 1, hi - 1;
    }
  }

  /** Read from the end, the arrangement around the last ascent. */
  lemma AscentShape(s: seq<bool>, i: nat, j: nat)
    requires i < j < |s| && !s[i] && s[j] && (forall k :: j < k < |s| ==> !s[k])
    requires forall k :: i < k && k + 1 < |s| ==> s[k] || !s[k + 1]
    ensures Reverse(s) == Fill(|s| - 1 - j, false) + Fill(j - i, true) + [false] + Reverse(s[..i])
    ensures s[i + 1..] == Fill(j - i, true) + Fill(|s| - 1 - j, false)
  {
    Upper(s, i, j);
  }

  lemma NextShape(s: seq<bool>, i: nat, j: nat, t: seq<bool>)
    requires i < j < |s| && s[i + 1..] == Fill(j - i, true) + Fill(|s| - 1 - j, false)
    requires |t| == |s| && t[..i + 1] == s[..i] + [true] && t[i + 1..] == Reverse(s[j := false][i + 1..])
    ensures Reverse(t) == Fill(j - i - 1, true) + Fill(|s| - j, false) + [true] + Reverse(s[..i])
  {
    var r := Reverse(t);
    forall k | 0 <= k < |t|
      ensures r[k] == (Fill(j - i - 1, true) + Fill(|s| - j, false) + [true] + Reverse(s[..i]))[k]
    {
      var m := |t| - 1 - k;
      assert r[k] == t[m];
      if m <= i {
        assert t[m] == t[..i + 1][m];
      } else {
        assert t[m] == t[i + 1..][m - i - 1];
        assert t[m] == s[j := false][i + 1..][|s| - 1 - m];
        assert s[i + 1..][|s| - 1 - m] == s[|s| + i - m];
      }
    }
  }

  /** The standard algorithm's step, in lexicographic order; after the last arrangement, false and back to the first. */
  method NextPermutation(v: array<bool>) returns (more: bool)
    modifies v
    ensures more ==> Rank(Reverse(v[..])) == old(Rank(Reverse(v[..]))) + 1
    ensures more ==> Count(Reverse(v[..])) == old(Count(Reverse(v[..])))
    ensures !more ==> old(Rising(Reverse(v[..]), v.Length)) && v[..] == Reverse(old(v[..]))
    ensures !more ==> forall i, j :: 0 <= i < j < v.Length && v[i] ==> v[j]
  {
    hide Rank, Count, Reverse;
    ghost var s := v[..];
    var i := LastAscent(v);
    if i < 0 {
      NoAscent(s);
      ReverseFrom(v, 0);
      assert v[0..] == v[..] && s[0..] == s;
      RisingMarked(v[..]);
      return false;
    }
    more := true;
    var j := LastMarkedPosition(v, i);
    AscentShape(s, i, j);
    v[i], v[j] := true, false;
    assert v[i + 1..] == s[j := false][i + 1..] && v[..i + 1] == s[..i] + [true];
    ReverseFrom(v, i + 1);
    NextShape(s, i, j, v[..]);
    RankNext(|s| - 1 - j, j - i, Reverse(s[..i]));
  }

  lemma NoAscent(s: seq<bool>)
    requires forall k :: 0 <= k && k + 1 < |s| ==> s[k] || !s[k + 1]
    ensures Rising(Reverse(s), |s|)
  {
    var r := Reverse(s);
    forall j | 0 <= j && j + 1 < |r| ensures !r[j] || r[j + 1] {
      var k := |s| - 2 - j;
      assert r[j] == s[k + 1] && r[j + 1] == s[k];
    }
  }

  lemma RisingMarked(s: seq<bool>)
    requires Rising(s, |s|)
    ensures forall i, j :: 0 <= i < j < |s| && s[i] ==> s[j]
  {
    forall i, j | 0 <= i < j < |s| && s[i] ensures s[j] {
      RisingFrom(s, i, j);
    }
  }

  lemma {:induction false} RisingFrom(s: seq<bool>, i: nat, j: nat)
    requires Rising(s, |s|) && i <= j < |s| && s[i]
    ensures s[j]
    decreases j - i
  {
    if i < j {
      assert !s[i] || s[i + 1];
      RisingFrom(s, i + 1, j);
    }
  }

  /** After the last ascent come the marked positions, then the unmarked ones. */
  lemma {:induction false} Upper(s: seq<bool>, i: nat, j: nat)
    requires i < j < |s| && s[j]
    requires forall k :: i < k && k + 1 < |s| ==> s[k] || !s[k + 1]
    ensures forall k :: i < k <= j ==> s[k]
    decreases j - i
  {
    if i + 1 < j {
      Upper(s, i + 1, j);
      assert s[i + 2] ==> s[i + 1];
    }
  }

  /** `combinator`: count the arrangements of r marks on n places. */
  method Combinator(n: nat, r: nat) returns (counter: nat)
    requires r <= n
    ensures counter == Choose(n, r)
  {
    hide Rank, Count, Reverse, Choose, Rising;
    var v := new bool[n](i => i >= n - r);
    counter := 0;
    var more := true;
    StartShape(v[..], n, r);
    while more
      invariant Count(Reverse(v[..])) == r && (more ==> Rank(Reverse(v[..])) == counter)
      invariant more || counter == Choose(n, r)
      decreases Choose(n, r) - counter, more
    {
      ghost var w := Reverse(v[..]);
      RankBound(w);
      counter := counter + 1;
      more := NextPermutation(v);
      if !more {
        EndShape(w, r);
        break;
      }
      RankBound(Reverse(v[..]));
    }
  }

  lemma StartShape(s: seq<bool>, n: nat, r: nat)
    requires r <= n == |s| && forall i :: 0 <= i < n ==> s[i] == (i >= n - r)
    ensures Count(Reverse(s)) == r && Rank(Reverse(s)) == 0
  {
    assert Reverse(s) == Fill(r, true) + Fill(n - r, false);
    RankFirst(r, n - r);
  }

  lemma EndShape(w: seq<bool>, r: nat)
    requires Rising(w, |w|) && Count(w) == r
    ensures Rank(w) + 1 == Choose(|w|, r)
  {
    RisingShape(w);
    RankLast(|w| - r, r);
  }
}
