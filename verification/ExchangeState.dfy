/** The layout and history of the buffer through which solver threads exchange clauses. */
module ExchangeState {

  /** A clause some thread offered, with its literals as integers. */
  datatype Sent = Sent(origin: nat, lits: seq<nat>)

  const HEADER_SIZE := 3

  function Words(x: Sent): nat {
    |x.lits| + HEADER_SIZE
  }

  /** The number of words that log entries a..b occupy. */
  function Span(log: seq<Sent>, a: nat, b: nat): nat
    requires a <= b <= |log|
  {
    if a == b then 0 else Span(log, a, b - 1) + Words(log[b - 1])
  }

  /** Reduce an index that is past the end of the ring by at most one lap. */
  function Wrap(i: nat, maxsize: nat): nat {
    if i >= maxsize then i - maxsize else i
  }

  /** The index a single steps further round the ring. */
  ghost function Steps(i: nat, a: nat, maxsize: nat): nat {
    if a == 0 then i
    else
      var j := Steps(i, a - 1, maxsize);
      if j + 1 == maxsize then 0 else j + 1
  }

  /** Wrapping a sum counts round the ring, by at most one lap, and stays inside it. */
  lemma {:induction false} WrapRing(i: nat, a: nat, maxsize: nat)
    requires i < maxsize && a <= maxsize
    ensures Wrap(i + a, maxsize) == Steps(i, a, maxsize) < maxsize
  {
    if a > 0 {
      WrapRing(i, a - 1, maxsize);
    }
  }

  /** How many of the first k threads other than `origin` have not yet passed log entry j. */
  function Behind(cur: seq<nat>, origin: nat, j: nat, k: nat): nat
    requires k <= |cur|
  {
    if k == 0 then 0
    else Behind(cur, origin, j, k - 1) + if k - 1 != origin && cur[k - 1] <= j then 1 else 0
  }

  /** The countdown a stored clause carries. A lone thread's clauses are never counted down. */
  function Countdown(log: seq<Sent>, cur: seq<nat>, j: nat): nat
    requires j < |log|
  {
    if |cur| == 1 then 1 else Behind(cur, log[j].origin, j, |cur|)
  }

  /** The clauses among the first k log entries that come from threads other than t, in order. */
  function Others(log: seq<Sent>, t: nat, k: nat): seq<Sent>
    requires k <= |log|
  {
    if k == 0 then []
    else if log[k - 1].origin == t then Others(log, t, k - 1)
    else Others(log, t, k - 1) + [log[k - 1]]
  }

  /** The fields of the buffer. */
  datatype Ring = Ring(elems: seq<nat>, first: nat, last: nat, queuesize: nat, lastOfThread: seq<nat>)

  /** All clauses accepted so far, how many have left the ring, and how far each thread has read. */
  datatype History = History(log: seq<Sent>, removed: nat, cur: seq<nat>)

  /** The word at distance d behind `last`. */
  function Cell(elems: seq<nat>, last: nat, d: nat): nat
    requires last < |elems| && d <= |elems|
  {
    elems[Wrap(last + d, |elems|)]
  }

  /** A record: its size, its countdown, its origin, its literals, starting after distance d. */
  ghost predicate RecordAt(elems: seq<nat>, last: nat, d: nat, x: Sent, count: nat) {
    && last < |elems| && d + Words(x) < |elems|
    && Cell(elems, last, d + 1) == |x.lits|
    && Cell(elems, last, d + 2) == count
    && Cell(elems, last, d + 3) == x.origin
    && forall i :: 0 <= i < |x.lits| ==> Cell(elems, last, d + 4 + i) == x.lits[i]
  }

  ghost predicate Geometry(r: Ring) {
    && r.last < |r.elems| && r.queuesize < |r.elems|
    && r.first == Wrap(r.last + 1 + r.queuesize, |r.elems|)
  }

  ghost predicate Progressing(h: History) {
    && h.removed <= |h.log|
    && (forall j :: 0 <= j < |h.log| ==> h.log[j].origin < |h.cur|)
    && (forall t :: 0 <= t < |h.cur| ==> h.removed <= h.cur[t] <= |h.log|)
  }

  /** Every clause still in the ring is stored in full, with the right countdown. */
  ghost predicate Stored(r: Ring, h: History) {
    && h.removed <= |h.log|
    && forall j :: h.removed <= j < |h.log| ==>
         RecordAt(r.elems, r.last, Span(h.log, h.removed, j), h.log[j], Countdown(h.log, h.cur, j))
  }

  /** Cursor t stands just before the record of log entry at[t]. */
  ghost predicate CursorsOk(r: Ring, log: seq<Sent>, removed: nat, at: seq<nat>) {
    && removed <= |log| && |r.lastOfThread| == |at|
    && forall t :: 0 <= t < |at| ==>
         && removed <= at[t] <= |log|
         && r.lastOfThread[t] == Wrap(r.last + Span(log, removed, at[t]), |r.elems|)
  }

  /** The ring holds what the history says, with the cursors at the entries `at`. */
  ghost predicate ConsistentAt(r: Ring, h: History, at: seq<nat>) {
    && Geometry(r) && Progressing(h) && Stored(r, h) && CursorsOk(r, h.log, h.removed, at)
    && |at| == |h.cur|
    && r.queuesize == Span(h.log, h.removed, |h.log|)
  }

  ghost predicate Consistent(r: Ring, h: History) {
    ConsistentAt(r, h, h.cur)
  }

  /** The oldest clause in the ring still has a reader to wait for. */
  ghost predicate OldestWanted(h: History) {
    h.removed < |h.log| ==> Countdown(h.log, h.cur, h.removed) > 0
  }

  // ---------------------------------------------------------------- arithmetic of spans

  lemma {:induction false} SpanSplit(log: seq<Sent>, a: nat, b: nat, c: nat)
    requires a <= b <= c <= |log|
    ensures Span(log, a, c) == Span(log, a, b) + Span(log, b, c)
    decreases c
  {
    if b < c {
      SpanSplit(log, a, b, c - 1);
    }
  }

  lemma {:induction false} SpanPrefix(log: seq<Sent>, x: Sent, a: nat, b: nat)
    requires a <= b <= |log|
    ensures Span(log + [x], a, b) == Span(log, a, b)
    decreases b
  {
    if a < b {
      SpanPrefix(log, x, a, b - 1);
    }
  }

  lemma SpanEmpty(log: seq<Sent>, a: nat)
    requires a <= |log|
    ensures Span(log, a, a) == 0
  {
  }

  lemma SpanStep(log: seq<Sent>, a: nat, j: nat)
    requires a <= j < |log|
    ensures Span(log, a, a) == 0
    ensures Span(log, a, j + 1) == Span(log, a, j) + Words(log[j])
  {
  }

  /** A stored record lies within the used part of the ring. */
  lemma SpanWithin(log: seq<Sent>, a: nat, j: nat)
    requires a <= j < |log|
    ensures Span(log, a, j) + Words(log[j]) <= Span(log, a, |log|)
  {
    SpanSplit(log, a, j + 1, |log|);
  }

  /** Different entries occupy disjoint words. */
  lemma SpanApart(log: seq<Sent>, a: nat, i: nat, j: nat)
    requires a <= i < j <= |log|
    ensures Span(log, a, i) + Words(log[i]) <= Span(log, a, j)
  {
    SpanSplit(log, a, i + 1, j);
  }

  // ---------------------------------------------------------------- countdowns

  /** Moving the cursor of thread t past entry j takes one off the countdown of j exactly. */
  lemma {:induction false} BehindStep(cur: seq<nat>, origin: nat, j: nat, k: nat, t: nat, c: nat)
    requires k <= |cur| && t < |cur| && cur[t] <= c
    ensures Behind(cur[t := c], origin, j, k)
            == Behind(cur, origin, j, k) - if t < k && t != origin && cur[t] <= j < c then 1 else 0
  {
    if k > 0 {
      BehindStep(cur, origin, j, k - 1, t, c);
    }
  }

  lemma {:induction false} BehindAll(cur: seq<nat>, origin: nat, j: nat, k: nat)
    requires k <= |cur| && forall t :: 0 <= t < |cur| ==> cur[t] <= j
    ensures Behind(cur, origin, j, k) == k - if origin < k then 1 else 0
  {
    if k > 0 {
      BehindAll(cur, origin, j, k - 1);
    }
  }

  /** With a zero countdown, every other thread has passed the entry. */
  lemma {:induction false} BehindZero(cur: seq<nat>, origin: nat, j: nat, k: nat)
    requires k <= |cur| && Behind(cur, origin, j, k) == 0
    ensures forall t :: 0 <= t < k && t != origin ==> cur[t] > j
  {
    if k > 0 {
      BehindZero(cur, origin, j, k - 1);
    }
  }

  lemma {:induction false} BehindPositive(cur: seq<nat>, origin: nat, j: nat, k: nat, t: nat)
    requires k <= |cur| && t < k && t != origin && cur[t] <= j
    ensures Behind(cur, origin, j, k) > 0
  {
    if t < k - 1 {
      BehindPositive(cur, origin, j, k - 1, t);
    }
  }

  lemma {:induction false} OthersPrefix(log: seq<Sent>, x: Sent, t: nat, k: nat)
    requires k <= |log|
    ensures Others(log + [x], t, k) == Others(log, t, k)
  {
    if k > 0 {
      OthersPrefix(log, x, t, k - 1);
    }
  }

  lemma {:induction false} OthersSkip(log: seq<Sent>, t: nat, a: nat, b: nat)
    requires a <= b <= |log| && forall j :: a <= j < b ==> log[j].origin == t
    ensures Others(log, t, b) == Others(log, t, a)
  {
    if a < b {
      OthersSkip(log, t, a, b - 1);
    }
  }

  /** A thread is never handed its own clause. */
  lemma {:induction false} OthersNotOwn(log: seq<Sent>, t: nat, k: nat)
    requires k <= |log|
    ensures forall i :: 0 <= i < |Others(log, t, k)| ==> Others(log, t, k)[i].origin != t
  {
    if k > 0 {
      OthersNotOwn(log, t, k - 1);
    }
  }
}
