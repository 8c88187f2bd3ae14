/** Expanding the on-set patterns of a partly known function into a two-level cover of prime cubes. */
module TwoLevelCover {
  import opened Powers
  import opened Sorting

  // ---------------------------------------------------------------- cubes

  /** A pattern of '0' and '1'. */
  ghost predicate Binary(s: string) {
    forall k :: 0 <= k < |s| ==> s[k] == '0' || s[k] == '1'
  }

  /** A cube: '-' stands for either value. */
  ghost predicate Cube(c: string) {
    forall k :: 0 <= k < |c| ==> c[k] == '0' || c[k] == '1' || c[k] == '-'
  }

  predicate Covers(c: string, p: string) {
    |c| == |p| && forall k :: 0 <= k < |c| ==> c[k] == '-' || c[k] == p[k]
  }

  type Table = map<string, string>

  ghost predicate Off(t: Table, p: string) {
    p in t && t[p] == "0"
  }

  ghost predicate On(t: Table, p: string) {
    p in t && t[p] == "1"
  }

  /** The cube covers no pattern known to be in the off-set. */
  ghost predicate Free(t: Table, c: string) {
    forall p :: Covers(c, p) ==> !Off(t, p)
  }

  /** No literal can be dropped. */
  ghost predicate Prime(t: Table, c: string) {
    Free(t, c) && forall k :: 0 <= k < |c| && c[k] != '-' ==> !Free(t, c[k := '-'])
  }

  // ---------------------------------------------------------------- the input order

  /** (index, score) pairs whose indices are a permutation. */
  type Order = seq<(int, int)>

  ghost predicate Named(o: Order, k: int) {
    exists i :: 0 <= i < |o| && o[i].0 == k
  }

  ghost predicate Indices(o: Order) {
    && (forall i :: 0 <= i < |o| ==> 0 <= o[i].0 < |o|)
    && (forall i, j :: 0 <= i < j < |o| ==> o[i].0 != o[j].0)
    && (forall k :: 0 <= k < |o| ==> Named(o, k))
  }

  /** The same pairs in another order. */
  ghost predicate SamePairs(o: Order, o': Order) {
    |o| == |o'| && forall x :: x in o <==> x in o'
  }

  /** `r` is `s` with position i moved to the i-th index of the order. */
  ghost predicate Moved(o: Order, s: string, r: string) {
    && |r| == |s| == |o|
    && forall i :: 0 <= i < |o| ==> 0 <= o[i].0 < |r| && r[o[i].0] == s[i]
  }

  lemma MovedUnique(o: Order, s: string, r: string, r': string)
    requires Indices(o) && Moved(o, s, r) && Moved(o, s, r')
    ensures r == r'
  {
    forall k | 0 <= k < |r| ensures r[k] == r'[k] {
      assert Named(o, k);
      var i :| 0 <= i < |o| && o[i].0 == k;
    }
  }

  /** Moving is reversible: both ways round, the covering relation is the same. */
  lemma MovedCovers(o: Order, c: string, d: string, p: string, q: string)
    requires Indices(o) && Moved(o, c, d) && Moved(o, p, q)
    ensures Covers(c, p) <==> Covers(d, q)
  {
    if Covers(c, p) {
      forall k | 0 <= k < |d| ensures d[k] == '-' || d[k] == q[k] {
        assert Named(o, k);
        var i :| 0 <= i < |o| && o[i].0 == k;
      }
    }
    if Covers(d, q) {
      forall i | 0 <= i < |c| ensures c[i] == '-' || c[i] == p[i] {
        assert d[o[i].0] == c[i] && q[o[i].0] == p[i];
      }
    }
  }

  /** Every string is what some string is moved to. */
  function Gather(o: Order, r: string): (s: string)
    requires |r| == |o| && forall i :: 0 <= i < |o| ==> 0 <= o[i].0 < |r|
    ensures |s| == |r| && Moved(o, s, r)
  {
    seq(|o|, i requires 0 <= i < |o| => r[o[i].0])
  }

  /** Move a string back to the original positions. */
  method OrderBack(o: Order, pat: string) returns (r: string)
    requires Indices(o) && |pat| == |o|
    ensures Moved(o, pat, r)
  {
    r := pat;
    var i := 0;
    while i < |pat|
      invariant 0 <= i <= |pat| && |r| == |pat|
      invariant forall k :: 0 <= k < i ==> r[o[k].0] == pat[k]
    {
      r := r[o[i].0 := pat[i]];
      i := i + 1;
    }
  }

  function ByScore(): ((int, int), (int, int)) -> bool {
    (x: (int, int), y: (int, int)) => x.1 > y.1
  }

  lemma ByScoreWeak()
    ensures StrictWeakOrder(ByScore())
  {
  }

  /** A one in the pattern counts against the input. */
  function Signed(x: (int, int), pat: string): (int, int) {
    if 0 <= x.0 < |pat| && pat[x.0] == '1' then (x.0, -x.1) else x
  }

  /** `o` with the scores signed by the pattern. */
  ghost predicate SignedAll(o: Order, o': Order, pat: string) {
    |o'| == |o| && forall i :: 0 <= i < |o| ==> o'[i] == Signed(o[i], pat)
  }

  lemma SignedMember(o: Order, o': Order, pat: string)
    requires SignedAll(o, o', pat)
    ensures forall x :: x in o' <==> Signed(x, pat) in o
  {
    forall x ensures x in o' <==> Signed(x, pat) in o {
      assert Signed(Signed(x, pat), pat) == x;
      if x in o' {
        var i :| 0 <= i < |o'| && o'[i] == x;
        assert Signed(x, pat) == o[i];
      }
      if Signed(x, pat) in o {
        var i :| 0 <= i < |o| && o[i] == Signed(x, pat);
        assert o'[i] == x;
      }
    }
  }

  /** Rearranging pairs keeps them and keeps the indices a permutation. */
  lemma RearrangedIndices(o: Order, o': Order)
    requires Indices(o) && multiset(o) == multiset(o')
    ensures Indices(o') && SamePairs(o, o')
  {
    assert |o| == |multiset(o)| == |o'|;
    forall x ensures x in o <==> x in o' {
      assert x in o <==> x in multiset(o);
      assert x in o' <==> x in multiset(o');
    }
    forall i | 0 <= i < |o'| ensures 0 <= o'[i].0 < |o'| {
      assert o'[i] in o;
    }
    DistinctSame(o, o');
    forall i, j | 0 <= i < j < |o'| ensures o'[i].0 != o'[j].0 {
      assert o'[i] in o && o'[j] in o;
    }
    forall k | 0 <= k < |o'| ensures Named(o', k) {
      assert Named(o, k);
      var i :| 0 <= i < |o| && o[i].0 == k;
      assert o[i] in o';
    }
  }

  lemma SignedIndices(o: Order, o': Order, pat: string)
    requires SignedAll(o, o', pat) && Indices(o)
    ensures Indices(o')
  {
    forall k | 0 <= k < |o'| ensures Named(o', k) {
      assert Named(o, k);
      var i :| 0 <= i < |o| && o[i].0 == k;
      assert o'[i].0 == k;
    }
  }

  method SignScores(order: array<(int, int)>, pat: string)
    requires |pat| == order.Length
    modifies order
    ensures SignedAll(old(order[..]), order[..], pat)
  {
    var i := 0;
    while i < order.Length
      invariant 0 <= i <= order.Length
      invariant forall k :: 0 <= k < i ==> order[k] == Signed(old(order[k]), pat)
      invariant forall k :: i <= k < order.Length ==> order[k] == old(order[k])
    {
      order[i] := Signed(order[i], pat);
      i := i + 1;
    }
  }

  method ReadInOrder(order: array<(int, int)>, pat: string) returns (r: string)
    requires Indices(order[..]) && |pat| == order.Length
    ensures Moved(order[..], r, pat)
  {
    r := "";
    var i := 0;
    while i < |pat|
      invariant 0 <= i <= |pat| && |r| == i
      invariant forall k :: 0 <= k < i ==> r[k] == pat[order[k].0]
    {
      r := r + [pat[order[i].0]];
      i := i + 1;
    }
  }

  method SortByScore(order: array<(int, int)>)
    requires Indices(order[..])
    modifies order
    ensures Indices(order[..]) && SamePairs(old(order[..]), order[..])
    ensures forall i, j :: 0 <= i < j < order.Length ==> order[i].1 >= order[j].1
  {
    ghost var o := order[..];
    ByScoreWeak();
    assert order[0..order.Length] == order[..];
    Sort(order, 0, order.Length, ByScore());
    assert order[0..order.Length] == order[..];
    RearrangedIndices(o, order[..]);
    forall i, j | 0 <= i < j < order.Length ensures order[i].1 >= order[j].1 {
      assert !ByScore()(order[..][j], order[..][i]);
    }
  }

  /** Signing the scores and signing them back, with a rearrangement between, keeps the pairs. */
  lemma SignedTwice(o: Order, signed: Order, sorted: Order, final: Order, pat: string)
    requires SignedAll(o, signed, pat) && SamePairs(signed, sorted) && SignedAll(sorted, final, pat)
    ensures SamePairs(o, final)
  {
    SignedMember(o, signed, pat);
    SignedMember(sorted, final, pat);
    forall x ensures x in o <==> x in final {
      assert Signed(Signed(x, pat), pat) == x;
    }
  }

  lemma IndexRange(o: Order)
    requires Indices(o)
    ensures forall i :: 0 <= i < |o| ==> 0 <= o[i].0 < |o|
  {
  }

  /** Sort the inputs by signed score and read the pattern in that order. The pairs themselves are kept. */
  method Reorder(order: array<(int, int)>, pat: string) returns (r: string)
    requires Indices(order[..]) && |pat| == order.Length
    modifies order
    ensures Indices(order[..]) && SamePairs(old(order[..]), order[..])
    ensures Moved(order[..], r, pat)
    ensures forall i, j :: 0 <= i < j < order.Length ==>
              && 0 <= order[i].0 < |pat| && 0 <= order[j].0 < |pat|
              && (if pat[order[i].0] == '1' then -order[i].1 else order[i].1)
                 >= (if pat[order[j].0] == '1' then -order[j].1 else order[j].1)
  {
    hide Indices, SamePairs;
    ghost var o := order[..];
    SignScores(order, pat);
    ghost var signed := order[..];
    SignedIndices(o, signed, pat);
    SortByScore(order);
    ghost var sorted := order[..];
    r := ReadInOrder(order, pat);
    SignScores(order, pat);
    SignedIndices(sorted, order[..], pat);
    SignedTwice(o, signed, sorted, order[..], pat);
    IndexRange(order[..]);
    forall i | 0 <= i < order.Length
      ensures Signed(order[i], pat) == sorted[i] && order[i].0 == sorted[i].0 && 0 <= order[i].0 < |pat|
    {
      assert order[i] == order[..][i];
    }
  }

  // ---------------------------------------------------------------- numbers as bit strings

  /** The number a bit string denotes, the first character most significant. */
  function Value(b: string): nat {
    if b == "" then 0 else 2 * Value(b[..|b| - 1]) + if b[|b| - 1] == '1' then 1 else 0
  }

  lemma {:induction false} ValueBound(b: string)
    ensures Value(b) < Pow(2, |b|)
  {
    if b != "" {
      ValueBound(b[..|b| - 1]);
    }
  }

  /** A bit string of given length is determined by its number. */
  lemma {:induction false} ValueInjective(b: string, c: string)
    requires Binary(b) && Binary(c) && |b| == |c| && Value(b) == Value(c)
    ensures b == c
  {
    if b != "" {
      var n := |b| - 1;
      ValueInjective(b[..n], c[..n]);
      assert b == b[..n] + [b[n]] && c == c[..n] + [c[n]];
    }
  }

  /** Leading zeros do not count. */
  lemma {:induction false} ValuePad(b: string)
    ensures Value("0" + b) == Value(b)
  {
    if b != "" {
      var n := |b| - 1;
      ValuePad(b[..n]);
      assert ("0" + b)[..|b|] == "0" + b[..n];
    } else {
      assert ("0" + b)[..0] == "";
    }
  }

  lemma {:induction false} ValuePush(c: char, b: string)
    requires c == '0' || c == '1'
    ensures Value([c] + b) == (if c == '1' then Pow(2, |b|) else 0) + Value(b)
  {
    var s := [c] + b;
    if b != "" {
      var n := |b| - 1;
      ValuePush(c, b[..n]);
      assert s[..|b|] == [c] + b[..n];
    } else {
      assert s[..0] == "";
    }
  }

  /** `Int2Binary`: the shortest bit string, empty for zero. */
  method Int2Binary(j: nat) returns (b: string)
    ensures Binary(b) && Value(b) == j && (b != "" ==> b[0] == '1')
  {
    b := "";
    var v: nat := j;
    ghost var w: nat := 1;
    while v != 0
      invariant Binary(b) && w == Pow(2, |b|) && j == v * w + Value(b)
      invariant v == 0 && b != "" ==> b[0] == '1'
      decreases v
    {
      var c := if v % 2 == 0 then '0' else '1';
      ValuePush(c, b);
      Halve(v, w);
      b := [c] + b;
      v := v / 2;
      w := 2 * w;
    }
  }

  lemma Halve(v: nat, w: nat)
    ensures v * w == (v / 2) * (2 * w) + (v % 2) * w
  {
    assert v == 2 * (v / 2) + v % 2;
  }

  /** The shortest bit string is no longer than any other for the same number. */
  lemma ShortestFits(b: string, m: nat)
    requires Binary(b) && Value(b) < Pow(2, m) && (b != "" ==> b[0] == '1')
    ensures |b| <= m
  {
    if b != "" {
      assert b == [b[0]] + b[1..];
      ValuePush(b[0], b[1..]);
      if m <= |b| - 1 {
        PowerGrows(m, |b| - 1);
      }
    }
  }

  lemma {:induction false} PowerGrows(m: nat, n: nat)
    requires m <= n
    ensures Pow(2, m) <= Pow(2, n)
    decreases n
  {
    if m < n {
      PowerGrows(m, n - 1);
    }
  }

  /** The m-bit string of j. */
  method PaddedBinary(j: nat, m: nat) returns (b: string)
    requires j < Pow(2, m)
    ensures Binary(b) && |b| == m && Value(b) == j
  {
    b := Int2Binary(j);
    ShortestFits(b, m);
    while |b| < m
      invariant Binary(b) && |b| <= m && Value(b) == j
    {
      ValuePad(b);
      b := "0" + b;
    }
  }

  // ---------------------------------------------------------------- completions of a cube

  /** The positions of the don't-cares, in increasing order. */
  function Dashes(c: string): seq<nat> {
    if c == "" then [] else Dashes(c[..|c| - 1]) + if c[|c| - 1] == '-' then [|c| - 1] else []
  }

  /** The cube with its don't-cares replaced, from left to right, by the bits. */
  function Fill(c: string, bits: string): string
    requires |bits| == |Dashes(c)|
  {
    if c == "" then ""
    else if c[|c| - 1] == '-' then Fill(c[..|c| - 1], bits[..|bits| - 1]) + [bits[|bits| - 1]]
    else Fill(c[..|c| - 1], bits) + [c[|c| - 1]]
  }

  /** What a pattern has at the don't-cares of a cube. */
  function Choice(c: string, p: string): (bits: string)
    requires |p| == |c|
    ensures |bits| == |Dashes(c)|
  {
    if c == "" then ""
    else Choice(c[..|c| - 1], p[..|c| - 1]) + if c[|c| - 1] == '-' then [p[|c| - 1]] else []
  }

  /** Filling is onto the covered patterns ... */
  lemma {:induction false} FillChoice(c: string, p: string)
    requires Covers(c, p)
    ensures Fill(c, Choice(c, p)) == p
    ensures Binary(p) ==> Binary(Choice(c, p))
  {
    if c != "" {
      var n := |c| - 1;
      FillChoice(c[..n], p[..n]);
      assert p == p[..n] + [p[n]];
      var b := Choice(c[..n], p[..n]);
      if c[n] == '-' {
        assert (b + [p[n]])[..|b|] == b;
      } else {
        assert Choice(c, p) == b;
      }
    }
  }

  /** ... and gives nothing else. */
  lemma {:induction false} FillCovered(c: string, bits: string)
    requires |bits| == |Dashes(c)|
    ensures Covers(c, Fill(c, bits))
  {
    if c != "" {
      var n := |c| - 1;
      FillCovered(c[..n], if c[n] == '-' then bits[..|bits| - 1] else bits);
    }
  }

  /** The last bit goes to the last don't-care. */
  lemma {:induction false} LastBit(c: string, i: nat, bits: string)
    requires |bits| == |Dashes(c)| && i < |c| && c[i] == '-' && forall k :: i < k < |c| ==> c[k] != '-'
    ensures |bits| > 0 && |Fill(c, bits)| == |c| && Fill(c, bits)[i] == bits[|bits| - 1]
  {
    var n := |c| - 1;
    if i < n {
      LastBit(c[..n], i, bits);
      assert Fill(c, bits) == Fill(c[..n], bits) + [c[n]];
    } else {
      FillCovered(c[..n], bits[..|bits| - 1]);
    }
  }

  /** The don't-cares before position k come first in the list; position k is next exactly if it is one. */
  lemma {:induction false} DashAt(c: string, k: nat)
    requires k < |c|
    ensures var m := |Dashes(c[..k])|;
            && m <= |Dashes(c)| && Dashes(c)[..m] == Dashes(c[..k])
            && (c[k] == '-' <==> m < |Dashes(c)| && Dashes(c)[m] == k)
            && forall x :: x in Dashes(c) ==> x < |c|
  {
    var n := |c| - 1;
    DashBelow(c[..n]);
    if k < n {
      DashAt(c[..n], k);
      assert c[..n][..k] == c[..k];
    }
  }

  lemma {:induction false} DashBelow(c: string)
    ensures forall x :: x in Dashes(c) ==> x < |c|
  {
    if c != "" {
      DashBelow(c[..|c| - 1]);
    }
  }

  /** Collect the positions of the don't-cares. */
  method ScanDashes(c: string) returns (pos: seq<nat>)
    ensures pos == Dashes(c)
  {
    pos := [];
    var j := 0;
    while j < |c|
      invariant 0 <= j <= |c| && pos == Dashes(c[..j])
    {
      assert c[..j + 1][..j] == c[..j];
      if c[j] == '-' {
        pos := pos + [j];
      }
      j := j + 1;
    }
    assert c[..|c|] == c;
  }

  /** The first k positions have been filled with the first bits. */
  ghost predicate FilledTo(c: string, bin: string, q: string, k: nat) {
    && |q| == |c| && k <= |c| && |Dashes(c[..k])| <= |bin|
    && q[..k] == Fill(c[..k], bin[..|Dashes(c[..k])|]) && q[k..] == c[k..]
  }

  lemma FillStep(c: string, bin: string, q: string, k: nat, q': string)
    requires FilledTo(c, bin, q, k) && k < |c| && |bin| == |Dashes(c)|
    requires if c[k] == '-' then |Dashes(c[..k])| < |bin| && q' == q[k := bin[|Dashes(c[..k])|]] else q' == q
    ensures FilledTo(c, bin, q', k + 1)
    ensures |Dashes(c[..k + 1])| == |Dashes(c[..k])| + if c[k] == '-' then 1 else 0
  {
    var cnt := |Dashes(c[..k])|;
    assert c[..k + 1][..k] == c[..k];
    assert q'[..k + 1] == q[..k] + [q'[k]];
    if c[k] == '-' {
      assert bin[..cnt + 1][..cnt] == bin[..cnt];
      assert q[k..][1..] == q[k + 1..];
    } else {
      assert q[k] == q[k..][0];
    }
    assert q'[k + 1..] == c[k + 1..] by {
      assert q[k..][1..] == c[k..][1..];
    }
  }

  /** Replace the don't-cares by bits. */
  method Query(c: string, pos: seq<nat>, bin: string) returns (q: string)
    requires pos == Dashes(c) && |bin| == |pos|
    ensures q == Fill(c, bin)
  {
    q := c;
    var cnt, k := 0, 0;
    hide Fill, FilledTo, Dashes;
    FillStart(c, bin);
    while k < |c|
      invariant 0 <= k <= |c| && 0 <= cnt <= |bin| && cnt == |Dashes(c[..k])| && |q| == |c|
      invariant FilledTo(c, bin, q, k)
    {
      DashAt(c, k);
      ghost var q0 := q;
      if cnt < |pos| && k == pos[cnt] {
        q := q[k := bin[cnt]];
        cnt := cnt + 1;
      }
      FillStep(c, bin, q0, k, q);
      DashesPrefix(c, k + 1);
      k := k + 1;
    }
    FillEnd(c, bin, q);
  }

  lemma DashesPrefix(c: string, k: nat)
    requires k <= |c|
    ensures |Dashes(c[..k])| <= |Dashes(c)|
  {
    if k < |c| {
      DashAt(c, k);
    } else {
      assert c[..k] == c;
    }
  }

  lemma FillStart(c: string, bin: string)
    ensures FilledTo(c, bin, c, 0) && Dashes(c[..0]) == []
  {
  }

  lemma FillEnd(c: string, bin: string, q: string)
    requires FilledTo(c, bin, q, |c|) && |bin| == |Dashes(c)|
    ensures q == Fill(c, bin)
  {
    assert c[..|c|] == c && bin[..|bin|] == bin && q[..|q|] == q;
  }

  // ---------------------------------------------------------------- testing one don't-care

  /** Moved back to the original positions, the pattern is in the off-set. */
  ghost predicate OffMoved(t: Table, o: Order, q: string) {
    exists r :: Moved(o, q, r) && Off(t, r)
  }

  /** No completion of the cube is in the off-set. */
  ghost predicate FreeMoved(t: Table, o: Order, c: string) {
    forall q :: Covers(c, q) && Binary(q) ==> !OffMoved(t, o, q)
  }

  /** i is the last don't-care of the cube. */
  ghost predicate LastDash(c: string, i: nat) {
    i < |c| && c[i] == '-' && forall k :: i < k < |c| ==> c[k] != '-'
  }

  /** The bit strings below j whose last bit is not `keep` do not lead into the off-set. */
  ghost predicate TestedBelow(t: Table, o: Order, c: string, keep: char, j: nat) {
    forall bits ::
      |bits| == |Dashes(c)| && |bits| > 0 && Binary(bits) && Value(bits) < j && bits[|bits| - 1] != keep ==>
      !OffMoved(t, o, Fill(c, bits))
  }

  lemma TestedSkip(t: Table, o: Order, c: string, keep: char, j: nat)
    requires TestedBelow(t, o, c, keep, j)
    requires (keep == '0' && j % 2 == 0) || (keep == '1' && j % 2 == 1)
    ensures TestedBelow(t, o, c, keep, j + 1)
  {
  }

  lemma TestedOne(t: Table, o: Order, c: string, keep: char, j: nat, bin: string)
    requires TestedBelow(t, o, c, keep, j) && |bin| == |Dashes(c)| && Binary(bin) && Value(bin) == j
    requires !OffMoved(t, o, Fill(c, bin))
    ensures TestedBelow(t, o, c, keep, j + 1)
  {
    forall bits | |bits| == |Dashes(c)| && |bits| > 0 && Binary(bits) && Value(bits) < j + 1 && bits[|bits| - 1] != keep
      ensures !OffMoved(t, o, Fill(c, bits))
    {
      if Value(bits) == j {
        ValueInjective(bits, bin);
      }
    }
  }

  /** All bit strings tested means all completions with the other value at the last don't-care tested. */
  lemma TestedAll(t: Table, o: Order, c: string, i: nat, keep: char)
    requires TestedBelow(t, o, c, keep, Pow(2, |Dashes(c)|)) && LastDash(c, i)
    ensures forall q :: Covers(c, q) && Binary(q) && q[i] != keep ==> !OffMoved(t, o, q)
  {
    forall q | Covers(c, q) && Binary(q) && q[i] != keep ensures !OffMoved(t, o, q) {
      var bits := Choice(c, q);
      FillChoice(c, q);
      ValueBound(bits);
      LastBit(c, i, bits);
    }
  }

  /** A bit string found in the off-set is a completion with the other value. */
  lemma FoundOff(t: Table, o: Order, c: string, i: nat, keep: char, bin: string)
    requires LastDash(c, i) && Cube(c) && |bin| == |Dashes(c)| && Binary(bin)
    requires (keep == '0' && Value(bin) % 2 == 1) || (keep == '1' && Value(bin) % 2 == 0)
    ensures Covers(c, Fill(c, bin)) && Binary(Fill(c, bin)) && Fill(c, bin)[i] != keep
  {
    FillCovered(c, bin);
    FillBinary(c, bin);
    LastBit(c, i, bin);
  }

  lemma {:induction false} FillBinary(c: string, bits: string)
    requires Cube(c) && Binary(bits) && |bits| == |Dashes(c)|
    ensures Binary(Fill(c, bits))
  {
    if c != "" {
      FillBinary(c[..|c| - 1], if c[|c| - 1] == '-' then bits[..|bits| - 1] else bits);
    }
  }

  /**
   * Does some completion with the other value at the newest don't-care lie in the off-set?
   * Only half of the bit strings are tried.
   */
  method TestFlips(t: Table, o: Order, c: string, i: nat, keep: char) returns (fail: bool)
    requires Indices(o) && |c| == |o| && Cube(c) && LastDash(c, i) && (keep == '0' || keep == '1')
    ensures fail <==> exists q :: Covers(c, q) && Binary(q) && q[i] != keep && OffMoved(t, o, q)
  {
    hide Cube, Indices, LastDash, Moved, Covers, Binary;
    var pos := ScanDashes(c);
    var range := PowerOf(|pos|);
    var j := 0;
    assert TestedBelow(t, o, c, keep, 0);
    while j < range
      invariant 0 <= j <= range && TestedBelow(t, o, c, keep, j)
    {
      if (keep == '0' && j % 2 == 0) || (keep == '1' && j % 2 == 1) {
        TestedSkip(t, o, c, keep, j);
      } else {
        var bin := PaddedBinary(j, |pos|);
        var q := Query(c, pos, bin);
        FoundOff(t, o, c, i, keep, bin);
        CoversLength(c, q);
        var r := OrderBack(o, q);
        OffIff(t, o, q, r);
        if r in t && t[r] == "0" {
          return true;
        }
        TestedOne(t, o, c, keep, j, bin);
      }
      j := j + 1;
    }
    fail := false;
    TestedAll(t, o, c, i, keep);
  }

  lemma CoversLength(c: string, q: string)
    requires Covers(c, q)
    ensures |c| == |q|
  {
  }

  lemma OffIff(t: Table, o: Order, q: string, r: string)
    requires Indices(o) && Moved(o, q, r)
    ensures OffMoved(t, o, q) <==> Off(t, r)
  {
    if OffMoved(t, o, q) {
      var r' :| Moved(o, q, r') && Off(t, r');
      MovedUnique(o, q, r, r');
    }
  }

  method PowerOf(m: nat) returns (p: nat)
    ensures p == Pow(2, m)
  {
    p := 1;
    var i := 0;
    while i < m
      invariant 0 <= i <= m && p == Pow(2, i)
    {
      p := 2 * p;
      i := i + 1;
    }
  }

  // ---------------------------------------------------------------- expanding one pattern

  /** The first i positions have been tried: each is a don't-care or cannot be one. */
  ghost predicate Expanded(t: Table, o: Order, pat: string, c: string, i: nat) {
    && |c| == |pat| && i <= |c|
    && (forall k :: 0 <= k < |c| ==> c[k] == pat[k] || (k < i && c[k] == '-'))
    && FreeMoved(t, o, c)
    && forall k :: 0 <= k < i && c[k] != '-' ==> !FreeMoved(t, o, c[k := '-'])
  }

  lemma ExpandKeep(t: Table, o: Order, pat: string, c: string, i: nat)
    requires Expanded(t, o, pat, c, i) && i < |c| && c[i] != '-' && !FreeMoved(t, o, c[i := '-'])
    ensures Expanded(t, o, pat, c, i + 1)
  {
  }

  lemma ExpandDrop(t: Table, o: Order, pat: string, c: string, i: nat)
    requires Expanded(t, o, pat, c, i) && i < |c| && c[i] != '-'
    requires forall q :: Covers(c[i := '-'], q) && Binary(q) && q[i] != c[i] ==> !OffMoved(t, o, q)
    ensures Expanded(t, o, pat, c[i := '-'], i + 1)
  {
    var d := c[i := '-'];
    forall q | Covers(d, q) && Binary(q) ensures !OffMoved(t, o, q) {
      if q[i] == c[i] {
        assert Covers(c, q);
      }
    }
    forall k | 0 <= k < i + 1 && d[k] != '-' ensures !FreeMoved(t, o, d[k := '-']) {
      var q :| Covers(c[k := '-'], q) && Binary(q) && OffMoved(t, o, q);
      assert Covers(d[k := '-'], q);
    }
  }

  /** Drop literals from left to right as long as the off-set is avoided. */
  method Expand(t: Table, o: Order, pat: string) returns (c: string)
    requires Indices(o) && |pat| == |o| && Binary(pat) && !OffMoved(t, o, pat)
    ensures Expanded(t, o, pat, c, |pat|)
  {
    c := pat;
    forall q | Covers(c, q) ensures q == pat {
    }
    var i := 0;
    while i < |pat|
      invariant 0 <= i <= |pat| && Expanded(t, o, pat, c, i)
    {
      hide Indices, FreeMoved, OffMoved;
      var d := c[i := '-'];
      var fail := TestFlips(t, o, d, i, c[i]);
      if fail {
        NotFree(t, o, d, i, c[i]);
        ExpandKeep(t, o, pat, c, i);
      } else {
        ExpandDrop(t, o, pat, c, i);
        c := d;
      }
      i := i + 1;
    }
  }

  lemma NotFree(t: Table, o: Order, d: string, i: nat, keep: char)
    requires i < |d| && exists q :: Covers(d, q) && Binary(q) && q[i] != keep && OffMoved(t, o, q)
    ensures !FreeMoved(t, o, d)
  {
  }

  // ---------------------------------------------------------------- the cover

  /** Every pattern of the table gives a value for each of the n inputs. */
  ghost predicate TableFor(t: Table, n: nat) {
    forall p :: p in t ==> |p| == n && Binary(p)
  }

  /** Freedom from the off-set does not depend on the positions. */
  lemma MovedFree(t: Table, o: Order, c: string, d: string)
    requires Indices(o) && Moved(o, c, d) && TableFor(t, |o|)
    ensures FreeMoved(t, o, c) <==> Free(t, d)
  {
    if FreeMoved(t, o, c) {
      forall p | Covers(d, p) ensures !Off(t, p) {
        if p in t {
          var q := Gather(o, p);
          MovedCovers(o, c, d, q, p);
          OffIff(t, o, q, p);
        }
      }
    }
    if Free(t, d) {
      forall q | Covers(c, q) && Binary(q) ensures !OffMoved(t, o, q) {
        if OffMoved(t, o, q) {
          var p :| Moved(o, q, p) && Off(t, p);
          MovedCovers(o, c, d, q, p);
        }
      }
    }
  }

  /** An expanded cube, moved back, is a prime cube covering the pattern. */
  lemma ExpandedPrime(t: Table, o: Order, pat: string, c: string, orig: string, d: string)
    requires Indices(o) && TableFor(t, |o|) && Expanded(t, o, pat, c, |pat|)
    requires Moved(o, c, d) && Moved(o, pat, orig)
    ensures Prime(t, d) && Covers(d, orig)
  {
    MovedFree(t, o, c, d);
    MovedCovers(o, c, d, pat, orig);
    hide FreeMoved, Free, TableFor, Covers;
    forall k | 0 <= k < |d| && d[k] != '-' ensures !Free(t, d[k := '-']) {
      assert Named(o, k);
      var i :| 0 <= i < |o| && o[i].0 == k;
      MovedDash(o, c, d, i);
      MovedFree(t, o, c[i := '-'], d[k := '-']);
    }
  }

  lemma MovedDash(o: Order, c: string, d: string, i: nat)
    requires Indices(o) && Moved(o, c, d) && i < |o|
    ensures d[o[i].0] == c[i] && Moved(o, c[i := '-'], d[o[i].0 := '-'])
  {
  }

  /** Each result is a cube followed by the output value 1. */
  ghost predicate ResultOk(t: Table, n: nat, r: string) {
    && |r| == n + 1 && r[n] == '1' && Prime(t, r[..n])
    && exists p :: On(t, p) && Covers(r[..n], p)
  }

  ghost predicate Covered(results: seq<string>, n: nat, p: string) {
    exists r :: r in results && |r| == n + 1 && Covers(r[..n], p)
  }

  /** Is the pattern covered already? */
  method AlreadyCovered(results: seq<string>, p: string) returns (skip: bool)
    requires forall r :: r in results ==> |r| == |p| + 1
    ensures skip <==> Covered(results, |p|, p)
  {
    skip := false;
    var i := 0;
    while i < |results| && !skip
      invariant 0 <= i <= |results|
      invariant !skip ==> forall k :: 0 <= k < i ==> !Covers(results[k][..|p|], p)
      invariant skip ==> Covered(results, |p|, p)
    {
      var r := results[i];
      skip := true;
      var j := 0;
      while j < |r| - 1 && skip
        invariant 0 <= j <= |r| - 1
        invariant skip <==> forall k :: 0 <= k < j ==> r[k] == '-' || r[k] == p[k]
      {
        if r[j] != '-' && r[j] != p[j] {
          skip := false;
        }
        j := j + 1;
      }
      assert skip <==> Covers(r[..|p|], p);
      i := i + 1;
    }
  }

  /**
   * Cover the on-set with prime cubes that avoid the off-set: the patterns are taken in any order,
   * and one that is covered already adds nothing.
   */
  method Optimise(t: Table, order: array<(int, int)>) returns (results: seq<string>)
    requires TableFor(t, order.Length) && Indices(order[..])
    modifies order
    ensures Indices(order[..]) && SamePairs(old(order[..]), order[..])
    ensures forall r :: r in results ==> ResultOk(t, order.Length, r)
    ensures forall p :: On(t, p) ==> Covered(results, order.Length, p)
    ensures forall p :: Off(t, p) ==> !Covered(results, order.Length, p)
    ensures forall i :: 0 <= i < |results| ==> CoversNew(t, order.Length, results, i)
  {
    hide Indices, Prime, Covers, Binary, Moved, CoversNew;
    ghost var o := order[..];
    results := [];
    var todo := t.Keys;
    while todo != {}
      invariant todo <= t.Keys && Indices(order[..]) && SamePairs(o, order[..])
      invariant forall r :: r in results ==> ResultOk(t, order.Length, r)
      invariant forall p :: On(t, p) && p !in todo ==> Covered(results, order.Length, p)
      invariant forall i :: 0 <= i < |results| ==> CoversNew(t, order.Length, results, i)
    {
      var p :| p in todo;
      todo := todo - {p};
      if t[p] == "1" {
        var skip := AlreadyCovered(results, p);
        if !skip {
          var r := CoverPattern(t, order, p);
          CoveredMore(results, order.Length, r);
          NewCovered(t, order.Length, results, r, p);
          results := results + [r];
        }
      }
    }
    OffUncovered(t, order.Length, results);
  }

  /** Cube i covers an on-set pattern that no cube before it covers. */
  ghost predicate CoversNew(t: Table, n: nat, results: seq<string>, i: nat) {
    i < |results| && exists p :: On(t, p) && Covered([results[i]], n, p) && !Covered(results[..i], n, p)
  }

  lemma NewCovered(t: Table, n: nat, results: seq<string>, r: string, p: string)
    requires forall i :: 0 <= i < |results| ==> CoversNew(t, n, results, i)
    requires On(t, p) && |r| == n + 1 && Covers(r[..n], p) && !Covered(results, n, p)
    ensures forall i :: 0 <= i < |results + [r]| ==> CoversNew(t, n, results + [r], i)
  {
    hide Covers;
    var all := results + [r];
    forall i | 0 <= i < |all| ensures CoversNew(t, n, all, i) {
      if i < |results| {
        assert CoversNew(t, n, results, i) && all[..i] == results[..i];
      } else {
        assert all[..i] == results && r in [r] && Covered([r], n, p);
      }
    }
  }

  lemma CoveredMore(results: seq<string>, n: nat, r: string)
    requires |r| == n + 1
    ensures forall p :: Covered(results, n, p) ==> Covered(results + [r], n, p)
    ensures forall p :: Covers(r[..n], p) ==> Covered(results + [r], n, p)
  {
    forall p | Covered(results, n, p) ensures Covered(results + [r], n, p) {
      var x :| x in results && |x| == n + 1 && Covers(x[..n], p);
      assert x in results + [r];
    }
    assert r in results + [r];
  }

  lemma OffUncovered(t: Table, n: nat, results: seq<string>)
    requires forall r :: r in results ==> ResultOk(t, n, r)
    ensures forall p :: Off(t, p) ==> !Covered(results, n, p)
  {
  }

  lemma MovedBinary(o: Order, s: string, r: string)
    requires Moved(o, s, r) && Binary(r)
    ensures Binary(s)
  {
    forall i | 0 <= i < |s| ensures s[i] == '0' || s[i] == '1' {
      assert r[o[i].0] == s[i];
    }
  }

  /** The result for one on-set pattern. */
  method CoverPattern(t: Table, order: array<(int, int)>, p: string) returns (r: string)
    requires TableFor(t, order.Length) && Indices(order[..]) && On(t, p)
    modifies order
    ensures Indices(order[..]) && SamePairs(old(order[..]), order[..])
    ensures ResultOk(t, order.Length, r) && Covers(r[..order.Length], p)
  {
    hide Indices, Prime, SamePairs;
    var inputPat := Reorder(order, p);
    ghost var o := order[..];
    MovedBinary(o, inputPat, p);
    OffIff(t, o, inputPat, p);
    var c := Expand(t, order[..], inputPat);
    var d := OrderBack(order[..], c);
    ExpandedPrime(t, o, inputPat, c, p, d);
    r := d + "1";
    assert r[..order.Length] == d;
  }
}
