/** Why pushing, reading and removing keep the exchange buffer consistent. */
module ExchangeSteps {
  import opened ExchangeState

  lemma CellWrite(elems: seq<nat>, last: nat, d: nat, w: nat, d': nat)
    requires last < |elems| && d < |elems| && d' < |elems|
    ensures Cell(elems[Wrap(last + d, |elems|) := w], last, d') == if d' == d then w else Cell(elems, last, d')
  {
  }

  // ---------------------------------------------------------------- pushing

  /** The ring after a record for x was written behind the newest one. */
  ghost predicate Pushed(r: Ring, r': Ring, x: Sent, n: nat) {
    && Geometry(r) && r.queuesize + Words(x) < |r.elems|
    && |r'.elems| == |r.elems| && r'.last == r.last && r'.lastOfThread == r.lastOfThread
    && r'.queuesize == r.queuesize + Words(x)
    && r'.first == Wrap(r.last + 1 + r.queuesize + Words(x), |r.elems|)
    && (forall d :: 0 <= d <= r.queuesize ==> Cell(r'.elems, r.last, d) == Cell(r.elems, r.last, d))
    && RecordAt(r'.elems, r.last, r.queuesize, x, if n > 1 then n - 1 else 1)
  }

  lemma PushStored(r: Ring, h: History, r': Ring, x: Sent)
    requires Consistent(r, h) && Pushed(r, r', x, |h.cur|) && x.origin < |h.cur|
    ensures Stored(r', History(h.log + [x], h.removed, h.cur))
  {
    hide Span, Behind, RecordAt, Wrap, Cell, CursorsOk;
    var h' := History(h.log + [x], h.removed, h.cur);
    forall j | h'.removed <= j < |h'.log|
      ensures RecordAt(r'.elems, r'.last, Span(h'.log, h'.removed, j), h'.log[j], Countdown(h'.log, h'.cur, j))
    {
      SpanPrefix(h.log, x, h.removed, j);
      if j < |h.log| {
        SpanWithin(h.log, h.removed, j);
        RecordKept(r.elems, r'.elems, r.last, Span(h.log, h.removed, j), h.log[j], Countdown(h.log, h.cur, j),
                   r.queuesize);
      } else {
        BehindAll(h.cur, x.origin, j, |h.cur|);
      }
    }
  }

  /** A record in the untouched part of the ring is still there. */
  lemma RecordKept(elems: seq<nat>, elems': seq<nat>, last: nat, d: nat, x: Sent, count: nat, q: nat)
    requires RecordAt(elems, last, d, x, count) && |elems| == |elems'| && q < |elems| && d + Words(x) <= q
    requires forall e :: 0 <= e <= q ==> Cell(elems', last, e) == Cell(elems, last, e)
    ensures RecordAt(elems', last, d, x, count)
  {
    forall i | 0 <= i < |x.lits| ensures Cell(elems', last, d + 4 + i) == x.lits[i] {
      assert Cell(elems, last, d + 4 + i) == x.lits[i];
    }
  }

  lemma PushKeeps(r: Ring, h: History, r': Ring, x: Sent)
    requires Consistent(r, h) && OldestWanted(h) && Pushed(r, r', x, |h.cur|) && x.origin < |h.cur|
    ensures var h' := History(h.log + [x], h.removed, h.cur); Consistent(r', h') && OldestWanted(h')
  {
    hide Span, Behind, RecordAt, Cell, Stored, Others;
    var h' := History(h.log + [x], h.removed, h.cur);
    PushStored(r, h, r', x);
    SpanPrefix(h.log, x, h.removed, |h.log|);
    SpanStep(h'.log, h.removed, |h.log|);
    forall t | 0 <= t < |h.cur|
      ensures r'.lastOfThread[t] == Wrap(r'.last + Span(h'.log, h'.removed, h'.cur[t]), |r'.elems|)
    {
      SpanPrefix(h.log, x, h.removed, h.cur[t]);
    }
    if h.removed == |h.log| {
      BehindAll(h.cur, x.origin, |h.log|, |h.cur|);
    }
  }

  // ---------------------------------------------------------------- reading

  /** Where a cursor at log entry k points. */
  lemma CursorPlace(r: Ring, h: History, at: seq<nat>, k: nat)
    requires ConsistentAt(r, h, at) && h.removed <= k <= |h.log|
    ensures var m := |r.elems|;
            var d := Span(h.log, h.removed, k);
            var pos := Wrap(r.last + d, m);
            && d <= r.queuesize && pos < m
            && (Wrap(pos + 1, m) == r.first <==> k == |h.log|)
            && (pos == r.last <==> k == h.removed)
            && (k < |h.log| ==> d + Words(h.log[k]) <= r.queuesize)
  {
    hide Span, Behind, Others, Stored, CursorsOk;
    SpanSplit(h.log, h.removed, k, |h.log|);
    SpanEmpty(h.log, h.removed);
    SpanEmpty(h.log, |h.log|);
    if h.removed < k {
      SpanApart(h.log, h.removed, h.removed, k);
    }
    if k < |h.log| {
      SpanWithin(h.log, h.removed, k);
    }
  }

  /** What the words at that place say. */
  lemma RecordReads(elems: seq<nat>, last: nat, d: nat, x: Sent, count: nat)
    requires RecordAt(elems, last, d, x, count)
    ensures var m := |elems|;
            var pos := Wrap(last + d, m);
            && elems[Wrap(pos + 1, m)] == |x.lits|
            && elems[Wrap(pos + 2, m)] == count
            && elems[Wrap(pos + 3, m)] == x.origin
            && Wrap(pos + |x.lits| + HEADER_SIZE, m) == Wrap(last + d + Words(x), m)
            && forall i :: 0 <= i < |x.lits| ==> elems[Wrap(pos + 4 + i, m)] == x.lits[i]
  {
    forall i | 0 <= i < |x.lits| ensures elems[Wrap(Wrap(last + d, |elems|) + 4 + i, |elems|)] == x.lits[i] {
      assert Cell(elems, last, d + 4 + i) == x.lits[i];
    }
  }

  lemma StoredAt(r: Ring, h: History, j: nat)
    requires Stored(r, h) && h.removed <= j < |h.log|
    ensures RecordAt(r.elems, r.last, Span(h.log, h.removed, j), h.log[j], Countdown(h.log, h.cur, j))
  {
    hide Span, Behind, RecordAt;
  }

  /** A cursor at log entry k sees that entry. */
  lemma CursorReads(r: Ring, h: History, at: seq<nat>, k: nat)
    requires ConsistentAt(r, h, at) && h.removed <= k < |h.log|
    ensures var m := |r.elems|;
            var pos := Wrap(r.last + Span(h.log, h.removed, k), m);
            && pos < m
            && r.elems[Wrap(pos + 1, m)] == |h.log[k].lits|
            && r.elems[Wrap(pos + 2, m)] == Countdown(h.log, h.cur, k)
            && r.elems[Wrap(pos + 3, m)] == h.log[k].origin
            && Wrap(pos + |h.log[k].lits| + HEADER_SIZE, m) == Wrap(r.last + Span(h.log, h.removed, k + 1), m)
            && forall i :: 0 <= i < |h.log[k].lits| ==> r.elems[Wrap(pos + 4 + i, m)] == h.log[k].lits[i]
  {
    hide Span, Behind, Stored, CursorsOk, RecordAt, Wrap, Others, Progressing;
    CursorPlace(r, h, at, k);
    SpanStep(h.log, h.removed, k);
    StoredAt(r, h, k);
    RecordReads(r.elems, r.last, Span(h.log, h.removed, k), h.log[k], Countdown(h.log, h.cur, k));
  }

  /** The special case of a cursor overtaken by `last` does not arise. */
  lemma NotOvertaken(r: Ring, h: History, at: seq<nat>, t: nat)
    requires ConsistentAt(r, h, at) && t < |at|
    ensures var c := r.lastOfThread[t];
            !(c < r.last < r.first) && !(r.first < c < r.last) && !(r.last < r.first < c)
  {
    CursorPlace(r, h, at, at[t]);
  }

  /** Skipping over its own clauses changes no countdown. */
  lemma SkipOwn(r: Ring, h: History, t: nat, k: nat)
    requires Consistent(r, h) && t < |h.cur| && h.cur[t] <= k <= |h.log|
    requires forall j :: h.cur[t] <= j < k ==> h.log[j].origin == t
    ensures var h' := h.(cur := h.cur[t := k]);
            && (forall j :: 0 <= j < |h.log| ==> Countdown(h'.log, h'.cur, j) == Countdown(h.log, h.cur, j))
            && Others(h.log, t, k) == Others(h.log, t, h.cur[t])
            && var at := Wrap(r.last + Span(h.log, h.removed, k), |r.elems|);
            Consistent(r.(lastOfThread := r.lastOfThread[t := at]), h')
  {
    hide Span, Behind, Others, RecordAt, Wrap, Cell, Countdown;
    SkipCountdown(h, t, k);
    OthersSkip(h.log, t, h.cur[t], k);
  }

  lemma SkipCountdown(h: History, t: nat, k: nat)
    requires Progressing(h) && t < |h.cur| && h.cur[t] <= k <= |h.log|
    requires forall j :: h.cur[t] <= j < k ==> h.log[j].origin == t
    ensures forall j :: 0 <= j < |h.log| ==> Countdown(h.log, h.cur[t := k], j) == Countdown(h.log, h.cur, j)
  {
    hide Behind;
    forall j | 0 <= j < |h.log| ensures Countdown(h.log, h.cur[t := k], j) == Countdown(h.log, h.cur, j) {
      BehindStep(h.cur, h.log[j].origin, j, |h.cur|, t, k);
    }
  }

  /** Reading entry k takes one off its countdown, and off no other. */
  lemma ReadCountdown(h: History, t: nat, k: nat, j: nat)
    requires Progressing(h) && t < |h.cur| && h.cur[t] <= k < |h.log| && h.log[k].origin != t && j < |h.log|
    requires forall i :: h.cur[t] <= i < k ==> h.log[i].origin == t
    ensures |h.cur| > 1
    ensures var c := h.cur[t := k + 1];
            && Countdown(h.log, h.cur, k) > 0
            && Countdown(h.log, c, j) == Countdown(h.log, h.cur, j) - if j == k then 1 else 0
  {
    BehindPositive(h.cur, h.log[k].origin, k, |h.cur|, t);
    BehindStep(h.cur, h.log[j].origin, j, |h.cur|, t, k + 1);
  }

  /** The ring after the countdown of entry k was decremented. */
  function Counted(r: Ring, d: nat, count: nat): Ring
    requires r.last < |r.elems| && d + 2 < |r.elems|
  {
    r.(elems := r.elems[Wrap(r.last + d + 2, |r.elems|) := count])
  }

  lemma ReadStored(r: Ring, h: History, t: nat, k: nat)
    requires Consistent(r, h) && t < |h.cur| && h.cur[t] <= k < |h.log| && h.log[k].origin != t
    requires forall i :: h.cur[t] <= i < k ==> h.log[i].origin == t
    ensures Countdown(h.log, h.cur, k) > 0
    ensures var d := Span(h.log, h.removed, k);
            var c := h.cur[t := k + 1];
            && d + 2 < |r.elems|
            && Stored(Counted(r, d, Countdown(h.log, c, k)), h.(cur := c))
            && Countdown(h.log, c, k) == Countdown(h.log, h.cur, k) - 1
  {
    hide Span, Behind, Others, RecordAt, Cell, CursorsOk;
    var d := Span(h.log, h.removed, k);
    SpanWithin(h.log, h.removed, k);
    ReadCountdown(h, t, k, k);
    var c := h.cur[t := k + 1];
    var r' := Counted(r, d, Countdown(h.log, c, k));
    forall j | h.removed <= j < |h.log|
      ensures RecordAt(r'.elems, r'.last, Span(h.log, h.removed, j), h.log[j], Countdown(h.log, c, j))
    {
      ReadCountdown(h, t, k, j);
      SpanWithin(h.log, h.removed, j);
      if j < k {
        SpanApart(h.log, h.removed, j, k);
      } else if k < j {
        SpanApart(h.log, h.removed, k, j);
      }
      RecordCounted(r.elems, r.last, d + 2, Countdown(h.log, c, k), Span(h.log, h.removed, j), h.log[j],
                    Countdown(h.log, h.cur, j), j == k);
    }
  }

  /** Writing one countdown word changes only the record it belongs to. */
  lemma RecordCounted(elems: seq<nat>, last: nat, e: nat, w: nat, d: nat, x: Sent, count: nat, own: bool)
    requires RecordAt(elems, last, d, x, count) && e < |elems|
    requires if own then e == d + 2 else e <= d || e > d + Words(x)
    ensures RecordAt(elems[Wrap(last + e, |elems|) := w], last, d, x, if own then w else count)
  {
    var elems' := elems[Wrap(last + e, |elems|) := w];
    CellWrite(elems, last, e, w, d + 1);
    CellWrite(elems, last, e, w, d + 2);
    CellWrite(elems, last, e, w, d + 3);
    forall i | 0 <= i < |x.lits| ensures Cell(elems', last, d + 4 + i) == x.lits[i] {
      CellWrite(elems, last, e, w, d + 4 + i);
    }
  }

  /** Reading keeps the ring consistent; the cursor of the reader has not been moved yet. */
  lemma ReadKeeps(r: Ring, h: History, t: nat, k: nat)
    requires Consistent(r, h) && t < |h.cur| && h.cur[t] <= k < |h.log| && h.log[k].origin != t
    requires forall i :: h.cur[t] <= i < k ==> h.log[i].origin == t
    ensures Countdown(h.log, h.cur, k) > 0 && r.last < |r.elems| && Span(h.log, h.removed, k) + 2 < |r.elems|
    ensures Progressing(h)
    ensures Countdown(h.log, h.cur[t := k + 1], k) == Countdown(h.log, h.cur, k) - 1
    ensures var c := h.cur[t := k + 1];
            ConsistentAt(Counted(r, Span(h.log, h.removed, k), Countdown(h.log, h.cur, k) - 1), h.(cur := c), h.cur)
    ensures Others(h.log, t, k + 1) == Others(h.log, t, h.cur[t]) + [h.log[k]]
  {
    hide Span, Behind, RecordAt, Cell, Stored;
    ReadStored(r, h, t, k);
    OthersSkip(h.log, t, h.cur[t], k);
    var c := h.cur[t := k + 1];
    var r' := Counted(r, Span(h.log, h.removed, k), Countdown(h.log, c, k));
    assert |r'.elems| == |r.elems| && Geometry(r') && Progressing(h.(cur := c));
    assert CursorsOk(r', h.log, h.removed, h.cur);
  }

  // ---------------------------------------------------------------- removing

  /** Cursors at entry m move on to m + 1. */
  function Bump(c: seq<nat>, m: nat): seq<nat> {
    seq(|c|, i requires 0 <= i < |c| => if c[i] == m then m + 1 else c[i])
  }

  /** The ring after the oldest record, of s words, is dropped. */
  function Dropped(r: Ring, s: nat): Ring
    requires s <= r.queuesize
  {
    var last' := Wrap(r.last + s, |r.elems|);
    Ring(r.elems, r.first, last', r.queuesize - s,
         seq(|r.lastOfThread|, i requires 0 <= i < |r.lastOfThread| =>
           if r.lastOfThread[i] == r.last then last' else r.lastOfThread[i]))
  }

  /** A clause leaves only when all other threads have read it, so the cursors it drags along are its owner's. */
  lemma DropCountdown(h: History, j: nat)
    requires Progressing(h) && h.removed < j < |h.log| && Countdown(h.log, h.cur, h.removed) == 0
    ensures Countdown(h.log, Bump(h.cur, h.removed), j) == Countdown(h.log, h.cur, j)
  {
    BehindBump(h.cur, h.removed, h.log[j].origin, j, |h.cur|);
  }

  lemma {:induction false} BehindBump(cur: seq<nat>, m: nat, origin: nat, j: nat, k: nat)
    requires k <= |cur| && m < j
    ensures Behind(Bump(cur, m), origin, j, k) == Behind(cur, origin, j, k)
  {
    if k > 0 {
      BehindBump(cur, m, origin, j, k - 1);
    }
  }

  lemma DropStored(r: Ring, h: History, at: seq<nat>)
    requires ConsistentAt(r, h, at) && h.removed < |h.log| && Countdown(h.log, h.cur, h.removed) == 0
    ensures Words(h.log[h.removed]) <= r.queuesize
    ensures Stored(Dropped(r, Words(h.log[h.removed])), History(h.log, h.removed + 1, Bump(h.cur, h.removed)))
  {
    hide Span, Behind, Others, RecordAt, Cell, CursorsOk, Wrap;
    var s := Words(h.log[h.removed]);
    SpanWithin(h.log, h.removed, h.removed);
    var r' := Dropped(r, s);
    var h' := History(h.log, h.removed + 1, Bump(h.cur, h.removed));
    forall j | h'.removed <= j < |h'.log|
      ensures RecordAt(r'.elems, r'.last, Span(h'.log, h'.removed, j), h'.log[j], Countdown(h'.log, h'.cur, j))
    {
      DropCountdown(h, j);
      SpanSplit(h.log, h.removed, h.removed + 1, j);
      SpanStep(h.log, h.removed, h.removed);
      SpanWithin(h.log, h.removed, j);
      RecordShift(r.elems, r.last, s, Span(h.log, h.removed, j), h.log[j], Countdown(h.log, h.cur, j));
    }
  }

  /** The same record, measured from a later starting point. */
  lemma RecordShift(elems: seq<nat>, last: nat, s: nat, d: nat, x: Sent, count: nat)
    requires RecordAt(elems, last, d, x, count) && s <= d
    ensures RecordAt(elems, Wrap(last + s, |elems|), d - s, x, count)
  {
    forall i | 0 <= i < |x.lits| ensures Cell(elems, Wrap(last + s, |elems|), d - s + 4 + i) == x.lits[i] {
      assert Cell(elems, last, d + 4 + i) == x.lits[i];
    }
  }

  lemma DropCursors(r: Ring, h: History, at: seq<nat>)
    requires ConsistentAt(r, h, at) && h.removed < |h.log|
    requires Words(h.log[h.removed]) <= r.queuesize
    ensures CursorsOk(Dropped(r, Words(h.log[h.removed])), h.log, h.removed + 1, Bump(at, h.removed))
  {
    hide Span, Behind, Others, RecordAt, Cell, Stored;
    var s := Words(h.log[h.removed]);
    var r' := Dropped(r, s);
    var at' := Bump(at, h.removed);
    forall t | 0 <= t < |at'|
      ensures h.removed + 1 <= at'[t] <= |h.log|
      ensures r'.lastOfThread[t] == Wrap(r'.last + Span(h.log, h.removed + 1, at'[t]), |r'.elems|)
    {
      CursorPlace(r, h, at, at[t]);
      SpanStep(h.log, h.removed, h.removed);
      SpanEmpty(h.log, h.removed + 1);
      SpanSplit(h.log, h.removed, h.removed + 1, at'[t]);
      SpanSplit(h.log, h.removed, at'[t], |h.log|);
    }
  }

  /** Dropping the oldest, fully read record keeps everything but the promise about the next oldest. */
  lemma DropKeeps(r: Ring, h: History, at: seq<nat>)
    requires ConsistentAt(r, h, at) && h.removed < |h.log| && Countdown(h.log, h.cur, h.removed) == 0
    requires forall t :: 0 <= t < |at| ==> at[t] <= h.cur[t]
    ensures Words(h.log[h.removed]) <= r.queuesize
    ensures var h' := History(h.log, h.removed + 1, Bump(h.cur, h.removed));
            var at' := Bump(at, h.removed);
            && ConsistentAt(Dropped(r, Words(h.log[h.removed])), h', at')
            && (forall t :: 0 <= t < |at'| ==> at'[t] <= h'.cur[t])
            && (forall t :: 0 <= t < |h.cur| ==> Others(h.log, t, h'.cur[t]) == Others(h.log, t, h.cur[t]))
  {
    hide Span, Behind, Others, RecordAt, Cell, Stored, CursorsOk;
    DropStored(r, h, at);
    DropCursors(r, h, at);
    SpanSplit(h.log, h.removed, h.removed + 1, |h.log|);
    SpanStep(h.log, h.removed, h.removed);
    BehindZero(h.cur, h.log[h.removed].origin, h.removed, |h.cur|);
    var h' := History(h.log, h.removed + 1, Bump(h.cur, h.removed));
    forall t | 0 <= t < |h.cur| ensures Others(h.log, t, h'.cur[t]) == Others(h.log, t, h.cur[t]) {
      if h.cur[t] == h.removed {
        assert h.log[h.removed].origin == t;
        OthersSkip(h.log, t, h.removed, h.removed + 1);
      }
    }
  }

  lemma ConsistentGeometry(r: Ring, h: History)
    requires Consistent(r, h)
    ensures Geometry(r)
  {
  }

  lemma ConsistentParts(r: Ring, h: History, at: seq<nat>)
    requires ConsistentAt(r, h, at)
    ensures Geometry(r) && Progressing(h) && |at| == |h.cur| == |r.lastOfThread|
  {
  }

  /** The first word of the oldest record is its size. */
  lemma OldestPlace(r: Ring, h: History, at: seq<nat>)
    requires ConsistentAt(r, h, at) && h.removed < |h.log|
    ensures r.last < |r.elems| && r.elems[Wrap(r.last + 1, |r.elems|)] == |h.log[h.removed].lits|
    ensures Words(h.log[h.removed]) <= r.queuesize
  {
    hide Behind, Stored, CursorsOk;
    SpanEmpty(h.log, h.removed);
    CursorPlace(r, h, at, h.removed);
    CursorReads(r, h, at, h.removed);
  }

  /** Its second word is its countdown. */
  lemma OldestCount(r: Ring, h: History, at: seq<nat>)
    requires ConsistentAt(r, h, at)
    ensures r.queuesize > 0 <==> h.removed < |h.log|
    ensures h.removed < |h.log| ==>
              Wrap(r.last + 2, |r.elems|) < |r.elems|
              && r.elems[Wrap(r.last + 2, |r.elems|)] == Countdown(h.log, h.cur, h.removed)
  {
    hide Behind, Stored, CursorsOk;
    SpanEmpty(h.log, h.removed);
    if h.removed < |h.log| {
      CursorPlace(r, h, at, h.removed);
      CursorReads(r, h, at, h.removed);
    }
  }

  lemma SizesOf(r: Ring, h: History, at: seq<nat>)
    requires ConsistentAt(r, h, at)
    ensures |at| == |h.cur| == |r.lastOfThread| && h.removed <= |h.log|
    ensures forall t :: 0 <= t < |at| ==> h.removed <= at[t] <= |h.log|
    ensures forall t :: 0 <= t < |at| ==> h.removed <= h.cur[t] <= |h.log|
  {
    hide Span, Stored;
  }

  /** Exactly the positions below m were moved, to m. */
  ghost predicate Dragged(c: seq<nat>, c': seq<nat>, m: nat) {
    |c| == |c'| && forall t :: 0 <= t < |c| ==> c'[t] == if c[t] < m then m else c[t]
  }

  /** No thread has missed or gained a clause. */
  ghost predicate SameOthers(log: seq<Sent>, cur: seq<nat>, cur': seq<nat>) {
    |cur| == |cur'| && forall t :: 0 <= t < |cur| ==>
      cur[t] <= |log| && cur'[t] <= |log| && Others(log, t, cur'[t]) == Others(log, t, cur[t])
  }

  lemma CursorAt(r: Ring, h: History, t: nat)
    requires Consistent(r, h) && t < |h.cur|
    ensures |r.lastOfThread| == |h.cur| && h.removed <= h.cur[t] <= |h.log| && Progressing(h)
    ensures r.lastOfThread[t] == Wrap(r.last + Span(h.log, h.removed, h.cur[t]), |r.elems|)
    ensures r.lastOfThread[t] < |r.elems|
    ensures Wrap(r.lastOfThread[t] + 1, |r.elems|) == r.first <==> h.cur[t] == |h.log|
  {
    hide Span, Behind, Stored;
    CursorPlace(r, h, h.cur, h.cur[t]);
  }

  lemma NoCatchUp(r: Ring, h: History, t: nat)
    requires Consistent(r, h) && t < |h.cur| && |r.lastOfThread| == |h.cur|
    ensures var c := r.lastOfThread[t];
            !(c < r.last < r.first) && !(r.first < c < r.last) && !(r.last < r.first < c)
  {
    hide Span, Behind, Stored;
    NotOvertaken(r, h, h.cur, t);
  }

  /** Everything a reader needs to know about log entry k, or that there is none. */
  lemma EntryAt(r: Ring, h: History, k: nat)
    requires Consistent(r, h) && h.removed <= k <= |h.log|
    ensures var m := |r.elems|;
            var pos := Wrap(r.last + Span(h.log, h.removed, k), m);
            && pos < m && Wrap(pos + 1, m) < m && (Wrap(pos + 1, m) == r.first <==> k == |h.log|)
            && (k < |h.log| ==>
                  && Wrap(pos + 3, m) < m
                  && r.elems[Wrap(pos + 3, m)] == h.log[k].origin
                  && r.elems[Wrap(pos + 1, m)] == |h.log[k].lits|
                  && Wrap(pos + |h.log[k].lits| + HEADER_SIZE, m) == Wrap(r.last + Span(h.log, h.removed, k + 1), m))
  {
    hide Span, Behind, Stored, CursorsOk;
    CursorPlace(r, h, h.cur, k);
    if k < |h.log| {
      CursorReads(r, h, h.cur, k);
    }
  }

  /** Skipping its own clauses leaves the oldest clause wanted. */
  lemma NobodyBehind(h: History, t: nat, k: nat)
    requires Progressing(h) && OldestWanted(h) && t < |h.cur| && h.cur[t] <= k <= |h.log|
    requires forall j :: h.cur[t] <= j < k ==> h.log[j].origin == t
    ensures OldestWanted(h.(cur := h.cur[t := k]))
  {
    if h.removed < |h.log| {
      BehindStep(h.cur, h.log[h.removed].origin, h.removed, |h.cur|, t, k);
    }
  }

  /** Reading the oldest clause for the last time is the only way to leave it unwanted. */
  lemma ReadWanted(h: History, t: nat, k: nat)
    requires Progressing(h) && OldestWanted(h) && t < |h.cur| && h.cur[t] <= k < |h.log| && h.log[k].origin != t
    requires forall i :: h.cur[t] <= i < k ==> h.log[i].origin == t
    ensures var h' := h.(cur := h.cur[t := k + 1]);
            (k != h.removed || Countdown(h.log, h.cur, k) > 1) ==> OldestWanted(h')
  {
    hide Behind, Countdown;
    if h.removed < |h.log| {
      ReadCountdown(h, t, k, h.removed);
    }
  }

  lemma BeforeRead(r: Ring, h: History, k: nat)
    requires Consistent(r, h) && h.removed <= k < |h.log|
    ensures var m := |r.elems|;
            var place := Wrap(r.last + Span(h.log, h.removed, k), m);
            && place < m && Span(h.log, h.removed, k) + Words(h.log[k]) < m
            && Wrap(place + 2, m) == Wrap(r.last + Span(h.log, h.removed, k) + 2, m)
            && r.elems[Wrap(place + 1, m)] == |h.log[k].lits|
            && r.elems[Wrap(place + 2, m)] == Countdown(h.log, h.cur, k)
  {
    hide Span, Behind, Stored, CursorsOk, Countdown;
    CursorPlace(r, h, h.cur, k);
    CursorReads(r, h, h.cur, k);
  }

  lemma AfterRead(r: Ring, h: History, at: seq<nat>, k: nat)
    requires ConsistentAt(r, h, at) && h.removed <= k < |h.log|
    ensures var m := |r.elems|;
            var place := Wrap(r.last + Span(h.log, h.removed, k), m);
            && place < m
            && r.elems[Wrap(place + 3, m)] == h.log[k].origin
            && (forall i :: 0 <= i < |h.log[k].lits| ==> r.elems[Wrap(place + 4 + i, m)] == h.log[k].lits[i])
            && Wrap(place + |h.log[k].lits| + HEADER_SIZE, m) == Wrap(r.last + Span(h.log, h.removed, k + 1), m)
  {
    hide Span, Behind, Stored, CursorsOk, Countdown;
    CursorReads(r, h, at, k);
  }

  /** A reader stands at `last` exactly when it reads the oldest clause. */
  lemma OldestCursor(r: Ring, h: History, at: seq<nat>, k: nat)
    requires ConsistentAt(r, h, at) && h.removed <= k < |h.log|
    ensures Wrap(r.last + Span(h.log, h.removed, k), |r.elems|) == r.last <==> k == h.removed
  {
    hide Span, Behind, Stored, CursorsOk, Countdown;
    CursorPlace(r, h, at, k);
  }

  /** After the removal the reader's cursor has been dragged along, so all cursors agree with the history again. */
  lemma DraggedSame(h0: History, t: nat, k: nat, cur: seq<nat>, at: seq<nat>, m: nat)
    requires Progressing(h0) && t < |h0.cur| && h0.cur[t] <= k && k == h0.removed && k < m
    requires Dragged(h0.cur[t := k + 1], cur, m) && Dragged(h0.cur, at, m)
    ensures at == cur && cur[t] == m
  {
  }

  lemma LastCursor(r: Ring, h: History, t: nat)
    requires ConsistentAt(r, h, h.cur) && t < |h.cur| && h.cur[t] == h.removed
    ensures |r.lastOfThread| == |h.cur| && r.lastOfThread[t] == r.last
  {
    hide Span, Stored;
    SpanEmpty(h.log, h.removed);
  }

  lemma MoveCursor(r: Ring, h: History, h0: History, t: nat, k: nat)
    requires ConsistentAt(r, h, h0.cur) && t < |h.cur| && h.removed <= k < |h.log|
    requires h == h0.(cur := h0.cur[t := k + 1])
    ensures |r.lastOfThread| == |h.cur|
    ensures var at := Wrap(r.last + Span(h.log, h.removed, k + 1), |r.elems|);
            ConsistentAt(r.(lastOfThread := r.lastOfThread[t := at]), h, h.cur)
  {
    hide Span, Stored, Countdown, Wrap, Behind;
    var at := Wrap(r.last + Span(h.log, h.removed, k + 1), |r.elems|);
    StoredFields(r, r.(lastOfThread := r.lastOfThread[t := at]), h);
  }

  lemma StoredFields(r: Ring, r': Ring, h: History)
    requires Stored(r, h) && r.elems == r'.elems && r.last == r'.last
    ensures Stored(r', h)
  {
  }
}
