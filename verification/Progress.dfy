/** The measure that makes one call of `search` terminate. */
module Progress {
  import opened Powers

  lemma MulMono(a: nat, b: nat, c: nat)
    requires a <= b
    ensures a * c <= b * c
  {
  }

  /**
   * The numbers of assigned literals per level, each plus one, as the digits of a number in base b,
   * level 0 first, with k + 1 digits.
   */
  function Digits(lim: seq<nat>, start: nat, size: nat, b: nat, k: nat): nat
    requires |lim| <= k
    decreases |lim|
  {
    if lim == [] then (if size < start then 0 else (size - start + 1) * Pow(b, k))
    else (if lim[0] < start then 0 else (lim[0] - start + 1) * Pow(b, k)) + Digits(lim[1..], lim[0], size, b, k - 1)
  }

  /** start, then the level boundaries, then size, in order. */
  ghost predicate Ordered(lim: seq<nat>, start: nat, size: nat) {
    && start <= size
    && (forall i :: 0 <= i < |lim| ==> start <= lim[i] <= size)
    && (forall i, j :: 0 <= i < j < |lim| ==> lim[i] <= lim[j])
  }

  /** A number with k + 1 digits below b is below b to the k + 1. */
  lemma {:induction false} DigitsBound(lim: seq<nat>, start: nat, size: nat, b: nat, k: nat)
    requires |lim| <= k && Ordered(lim, start, size) && size + 2 <= b
    ensures Digits(lim, start, size, b, k) < Pow(b, k + 1)
    decreases |lim|
  {
    var p := Pow(b, k);
    if lim == [] {
      MulMono(size - start + 1, b - 1, p);
      assert (b - 1) * p == b * p - p;
    } else {
      DigitsBound(lim[1..], lim[0], size, b, k - 1);
      MulMono(lim[0] - start + 1, b - 1, p);
      assert (b - 1) * p == b * p - p;
    }
  }

  /** More literals at the top level make the number larger. */
  lemma {:induction false} DigitsGrow(lim: seq<nat>, start: nat, size: nat, size': nat, b: nat, k: nat)
    requires |lim| <= k && Ordered(lim, start, size) && size < size' && b > 0
    ensures Digits(lim, start, size, b, k) < Digits(lim, start, size', b, k)
    decreases |lim|
  {
    if lim == [] {
      var p := Pow(b, k);
      MulMono(size - start + 2, size' - start + 1, p);
      assert (size - start + 2) * p == (size - start + 1) * p + p;
    } else {
      DigitsGrow(lim[1..], lim[0], size, size', b, k - 1);
    }
  }

  /** Opening a level makes the number larger. */
  lemma {:induction false} DigitsPush(lim: seq<nat>, start: nat, size: nat, b: nat, k: nat)
    requires |lim| < k && Ordered(lim, start, size) && b > 0
    ensures Digits(lim, start, size, b, k) < Digits(lim + [size], start, size, b, k)
    decreases |lim|
  {
    if lim == [] {
      assert ([size])[1..] == [];
      assert lim + [size] == [size];
      MulPositive(size - size + 1, Pow(b, k - 1));
    } else {
      assert (lim + [size])[1..] == lim[1..] + [size];
      DigitsPush(lim[1..], lim[0], size, b, k - 1);
    }
  }

  /** Dropping the levels above l and adding a literal to level l makes the number larger. */
  lemma {:induction false} DigitsBackjump(lim: seq<nat>, start: nat, size: nat, l: nat, b: nat, k: nat)
    requires |lim| <= k && Ordered(lim, start, size) && size + 2 <= b && l < |lim|
    ensures Digits(lim, start, size, b, k) < Digits(lim[..l], start, lim[l] + 1, b, k)
    decreases |lim|
  {
    if l == 0 {
      assert lim[..0] == [];
      DigitsBound(lim[1..], lim[0], size, b, k - 1);
      var p := Pow(b, k);
      assert (lim[0] + 1 - start + 1) * p == (lim[0] - start + 1) * p + p;
    } else {
      assert lim[..l][1..] == lim[1..][..l - 1];
      DigitsBackjump(lim[1..], lim[0], size, l - 1, b, k - 1);
    }
  }
}
