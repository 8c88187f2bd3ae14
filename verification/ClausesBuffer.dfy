/** The ring buffer through which solver threads exchange clauses. Each call is one atomic step. */
module Exchange {
  import opened ExchangeState
  import opened ExchangeSteps

  class ClausesBuffer {
    const elems: array<nat>
    const maxsize: nat
    const nbThreads: nat
    var first: nat
    var last: nat
    var queuesize: nat
    var lastOfThread: seq<nat>
    /** Everything accepted so far, and how far each thread has read. */
    ghost var h: History
    /** What each thread has been handed so far. */
    ghost var got: seq<seq<Sent>>

    ghost function R(): Ring
      reads this, elems
    {
      Ring(elems[..], first, last, queuesize, lastOfThread)
    }

    /** Each thread has received exactly what the others sent, up to where it has read. */
    ghost predicate Delivered()
      reads this
    {
      && |got| == |h.cur| == nbThreads
      && forall t :: 0 <= t < nbThreads ==> h.cur[t] <= |h.log| && got[t] == Others(h.log, t, h.cur[t])
    }

    ghost predicate Valid()
      reads this, elems
    {
      && elems.Length == maxsize && nbThreads > 0 && |lastOfThread| == nbThreads
      && Consistent(R(), h) && OldestWanted(h) && Delivered()
    }

    constructor (n: nat, size: nat)
      requires n > 0 && size > 0
      ensures Valid() && nbThreads == n && maxsize == size && h.log == [] && fresh(elems)
    {
      elems := new nat[size](_ => 0);
      maxsize, nbThreads := size, n;
      first, last, queuesize := 0, size - 1, 0;
      lastOfThread := seq(n, _ => size - 1);
      h := History([], 0, seq(n, _ => 0));
      got := seq(n, _ => []);
    }

    function NextIndex(i: nat): (r: nat)
      requires i < maxsize
      ensures r == Wrap(i + 1, maxsize) && r < maxsize
    {
      if i + 1 == maxsize then 0 else i + 1
    }

    /** The index a steps further round the ring. */
    function AddIndex(i: nat, a: nat): nat {
      Wrap(i + a, maxsize)
    }

    method NoCheckPush(x: nat)
      requires elems.Length == maxsize && first < maxsize
      modifies this`first, elems
      ensures elems[..] == old(elems[..])[old(first) := x] && first == Wrap(old(first) + 1, maxsize)
    {
      elems[first] := x;
      first := NextIndex(first);
    }

    /** Write a word at distance d behind `last`. */
    method PushAt(x: nat, ghost d: nat)
      requires elems.Length == maxsize && last < maxsize && d < maxsize && first == Wrap(last + d, maxsize)
      modifies this`first, elems
      ensures first == Wrap(last + d + 1, maxsize)
      ensures Cell(elems[..], last, d) == x
      ensures forall e :: 0 <= e < maxsize && e != d ==> Cell(elems[..], last, e) == old(Cell(elems[..], last, e))
    {
      ghost var s := elems[..];
      forall e | 0 <= e < maxsize ensures Cell(s[first := x], last, e) == if e == d then x else Cell(s, last, e) {
        CellWrite(s, last, d, x, e);
      }
      NoCheckPush(x);
    }

    /** Accept the clause unless there is no room for it. The option to drop older clauses is not modelled. */
    method PushClause(threadId: nat, c: seq<nat>) returns (ok: bool)
      requires Valid() && threadId < nbThreads
      modifies this, elems
      ensures Valid()
      ensures ok <==> old(queuesize) + |c| + HEADER_SIZE < maxsize
      ensures h == if ok then old(h).(log := old(h).log + [Sent(threadId, c)]) else old(h)
      ensures got == old(got)
    {
      if queuesize + |c| + HEADER_SIZE >= maxsize {
        return false;
      }
      ghost var r, x := R(), Sent(threadId, c);
      hide Consistent, OldestWanted, Span, Others, Wrap;
      ConsistentGeometry(r, h);
      WriteRecord(threadId, c);
      PushKeeps(r, h, R(), x);
      forall t | 0 <= t < nbThreads ensures Others(h.log + [x], t, h.cur[t]) == Others(h.log, t, h.cur[t]) {
        OthersPrefix(h.log, x, t, h.cur[t]);
      }
      h := h.(log := h.log + [x]);
      ok := true;
    }

    method WriteRecord(threadId: nat, c: seq<nat>)
      requires elems.Length == maxsize && Geometry(R()) && queuesize + |c| + HEADER_SIZE < maxsize
      modifies this`first, this`queuesize, elems
      ensures Pushed(old(R()), R(), Sent(threadId, c), nbThreads)
    {
      hide Cell, Wrap;
      ghost var q, s := queuesize, elems[..];
      PushAt(|c|, q + 1);
      PushAt(if nbThreads > 1 then nbThreads - 1 else 1, q + 2);
      PushAt(threadId, q + 3);
      ghost var s3 := elems[..];
      WriteLits(c, q + 4);
      forall d | 0 <= d <= q + 3 ensures Cell(elems[..], last, d) == Cell(s3, last, d) {
      }
      queuesize := queuesize + |c| + HEADER_SIZE;
    }

    /** Write the literals from distance d on. */
    method WriteLits(c: seq<nat>, ghost d: nat)
      requires elems.Length == maxsize && last < maxsize && d + |c| <= maxsize && first == Wrap(last + d, maxsize)
      modifies this`first, elems
      ensures first == Wrap(last + d + |c|, maxsize)
      ensures forall e :: 0 <= e < d && e < maxsize ==> Cell(elems[..], last, e) == old(Cell(elems[..], last, e))
      ensures forall k :: 0 <= k < |c| ==> Cell(elems[..], last, d + k) == c[k]
    {
      hide Cell, Wrap;
      var i := 0;
      while i < |c|
        invariant 0 <= i <= |c| && first == Wrap(last + d + i, maxsize)
        invariant forall e :: 0 <= e < d && e < maxsize ==> Cell(elems[..], last, e) == old(Cell(elems[..], last, e))
        invariant forall k :: 0 <= k < i ==> Cell(elems[..], last, d + k) == c[k]
      {
        PushAt(c[i], d + i);
        i := i + 1;
      }
    }

    /** Move the cursors that stand at `last` to nextlast. */
    method MoveCursors(nextlast: nat)
      modifies this`lastOfThread
      ensures lastOfThread == seq(|old(lastOfThread)|, i requires 0 <= i < |old(lastOfThread)| =>
                                    if old(lastOfThread)[i] == old(last) then nextlast else old(lastOfThread)[i])
    {
      var i := 0;
      while i < |lastOfThread|
        invariant 0 <= i <= |lastOfThread| == |old(lastOfThread)|
        invariant forall k :: 0 <= k < i ==>
                    lastOfThread[k] == if old(lastOfThread)[k] == last then nextlast else old(lastOfThread)[k]
        invariant forall k :: i <= k < |lastOfThread| ==> lastOfThread[k] == old(lastOfThread)[k]
      {
        if lastOfThread[i] == last {
          lastOfThread := lastOfThread[i := nextlast];
        }
        i := i + 1;
      }
    }

    /** Give n words back, one at a time. */
    method ReleaseWords(n: nat)
      requires n <= queuesize < maxsize && last < maxsize
      modifies this`last, this`queuesize
      ensures last == Wrap(old(last) + n, maxsize) && queuesize == old(queuesize) - n && last < maxsize
    {
      var i := 0;
      while i < n
        invariant 0 <= i <= n && last < maxsize
        invariant last == Wrap(old(last) + i, maxsize) && queuesize == old(queuesize) - i
      {
        last := NextIndex(last);
        queuesize := queuesize - 1;
        i := i + 1;
      }
    }

    /** The oldest record has been read by all: drop it. */
    method DropOldest(ghost at: seq<nat>)
      requires elems.Length == maxsize && ConsistentAt(R(), h, at) && h.removed < |h.log|
      requires Countdown(h.log, h.cur, h.removed) == 0 && forall t :: 0 <= t < |at| ==> at[t] <= h.cur[t]
      modifies this`last, this`queuesize, this`lastOfThread, this`h
      ensures h == History(old(h).log, old(h).removed + 1, Bump(old(h).cur, old(h).removed))
      ensures ConsistentAt(R(), h, Bump(at, old(h).removed))
      ensures forall t :: 0 <= t < |at| ==> Bump(at, old(h).removed)[t] <= h.cur[t]
      ensures |h.cur| == |old(h).cur| &&
              forall t :: 0 <= t < |h.cur| ==>
                old(h).cur[t] <= |h.log| && h.cur[t] <= |h.log|
                  && Others(h.log, t, h.cur[t]) == Others(h.log, t, old(h).cur[t])
    {
      hide Span, Others, Countdown, Stored, CursorsOk;
      ghost var r := R();
      ConsistentParts(r, h, at);
      OldestPlace(r, h, at);
      DropKeeps(r, h, at);
      var size := elems[NextIndex(last)];
      var nextlast := AddIndex(last, size + HEADER_SIZE);
      MoveCursors(nextlast);
      ReleaseWords(size + HEADER_SIZE);
      assert R() == Dropped(r, Words(h.log[h.removed]));
      h := History(h.log, h.removed + 1, Bump(h.cur, h.removed));
    }

    /** Drop the oldest clause, and the ones behind it that nobody waits for. */
    method RemoveLastClause(ghost at0: seq<nat>) returns (ghost at: seq<nat>)
      requires elems.Length == maxsize && ConsistentAt(R(), h, at0) && h.removed < |h.log|
      requires Countdown(h.log, h.cur, h.removed) == 0 && forall t :: 0 <= t < |at0| ==> at0[t] <= h.cur[t]
      modifies this`last, this`queuesize, this`lastOfThread, this`h
      ensures h.log == old(h).log && h.removed > old(h).removed
      ensures ConsistentAt(R(), h, at) && OldestWanted(h)
      ensures Dragged(old(h).cur, h.cur, h.removed) && Dragged(at0, at, h.removed)
      ensures SameOthers(h.log, old(h).cur, h.cur)
    {
      hide Span, Others, Countdown, Stored, ConsistentAt, Behind;
      SizesOf(R(), h, at0);
      at := Bump(at0, h.removed);
      DropOldest(at0);
      SizesOf(R(), h, at);
      OldestCount(R(), h, at);
      while queuesize > 0 && elems[AddIndex(last, 2)] == 0
        invariant h.log == old(h).log && h.removed > old(h).removed
        invariant ConsistentAt(R(), h, at) && h.removed <= |h.log| && |at| == |h.cur|
        invariant forall t :: 0 <= t < |at| ==> at[t] <= h.cur[t]
        invariant Dragged(old(h).cur, h.cur, h.removed) && Dragged(at0, at, h.removed)
        invariant SameOthers(h.log, old(h).cur, h.cur)
        invariant queuesize > 0 <==> h.removed < |h.log|
        invariant queuesize > 0 ==>
                    AddIndex(last, 2) < elems.Length && elems[AddIndex(last, 2)] == Countdown(h.log, h.cur, h.removed)
        decreases |h.log| - h.removed
      {
        ghost var m := h.removed;
        DropOldest(at);
        at := Bump(at, m);
        SizesOf(R(), h, at);
        OldestCount(R(), h, at);
      }
    }

    /**
     * Hand the thread its next clause from another thread, if there is one. On failure the thread has
     * received everything the others sent so far.
     */
    method GetClause(threadId: nat) returns (found: bool, threadOrigin: nat, result: seq<nat>)
      requires Valid() && threadId < nbThreads
      modifies this, elems
      ensures Valid() && h.log == old(h).log && h.removed >= old(h).removed
      ensures found ==> threadOrigin != threadId
      ensures got == if found then old(got)[threadId := old(got)[threadId] + [Sent(threadOrigin, result)]] else old(got)
      ensures !found ==> got[threadId] == Others(h.log, threadId, |h.log|)
    {
      hide Consistent, Span, Others, Countdown, Wrap, OldestWanted;
      found, threadOrigin, result := false, 0, [];
      var thislast := lastOfThread[threadId];
      ghost var k := h.cur[threadId];
      CursorAt(R(), h, threadId);
      if NextIndex(thislast) == first {
        return;
      }
      NoCatchUp(R(), h, threadId);
      if (thislast < last && last < first) || (first < thislast && thislast < last)
         || (last < first && first < thislast) {
        // `last` has overtaken the cursor: this cannot happen while older clauses are never forced out.
        assert false;
      }
      thislast, k := SkipOwnClauses(threadId, thislast);
      SkipOwn(R(), h, threadId, k);
      if NextIndex(thislast) == first {
        NobodyBehind(h, threadId, k);
        lastOfThread := lastOfThread[threadId := thislast];
        h := h.(cur := h.cur[threadId := k]);
        return;
      }
      found := true;
      threadOrigin, result := ReadClause(threadId, thislast, k);
    }

    /** From the thread's cursor, pass over its own clauses. */
    method SkipOwnClauses(threadId: nat, start: nat) returns (thislast: nat, ghost k: nat)
      requires Valid() && threadId < nbThreads && start == lastOfThread[threadId]
      ensures h.cur[threadId] <= k <= |h.log| && thislast < maxsize
      ensures h.removed <= k && thislast == Wrap(last + Span(h.log, h.removed, k), maxsize)
      ensures forall j :: h.cur[threadId] <= j < k ==> h.log[j].origin == threadId
      ensures NextIndex(thislast) == first <==> k == |h.log|
      ensures k < |h.log| ==> h.log[k].origin != threadId
    {
      hide Span, Others, Countdown, Wrap, Stored, CursorsOk, OldestWanted, Geometry;
      thislast, k := start, h.cur[threadId];
      CursorAt(R(), h, threadId);
      EntryAt(R(), h, k);
      while NextIndex(thislast) != first && elems[AddIndex(thislast, 3)] == threadId
        invariant h.removed <= h.cur[threadId] <= k <= |h.log| && thislast < maxsize
        invariant thislast == Wrap(last + Span(h.log, h.removed, k), maxsize)
        invariant forall j :: h.cur[threadId] <= j < k ==> h.log[j].origin == threadId
        invariant NextIndex(thislast) == first <==> k == |h.log|
        invariant k < |h.log| ==>
                    && Wrap(thislast + 3, maxsize) < maxsize && Wrap(thislast + 1, maxsize) < maxsize
                    && elems[Wrap(thislast + 3, maxsize)] == h.log[k].origin
                    && elems[Wrap(thislast + 1, maxsize)] == |h.log[k].lits|
                    && Wrap(thislast + |h.log[k].lits| + HEADER_SIZE, maxsize)
                       == Wrap(last + Span(h.log, h.removed, k + 1), maxsize)
        decreases |h.log| - k
      {
        thislast := AddIndex(thislast, elems[NextIndex(thislast)] + HEADER_SIZE);
        k := k + 1;
        EntryAt(R(), h, k);
      }
    }

    /** Copy origin and literals of a record whose countdown is the word at pos. */
    method CopyRecord(pos: nat, csize: nat, ghost x: Sent, ghost place: nat)
      returns (threadOrigin: nat, result: seq<nat>, end: nat)
      requires elems.Length == maxsize && place < maxsize && |x.lits| + HEADER_SIZE < maxsize
      requires pos == Wrap(place + 2, maxsize) && csize == |x.lits|
      requires elems[Wrap(place + 3, maxsize)] == x.origin
      requires forall i :: 0 <= i < |x.lits| ==> elems[Wrap(place + 4 + i, maxsize)] == x.lits[i]
      ensures Sent(threadOrigin, result) == x && end == Wrap(place + |x.lits| + HEADER_SIZE, maxsize)
    {
      end := NextIndex(pos);
      threadOrigin := elems[end];
      result := [];
      var i := 0;
      while i < csize
        invariant 0 <= i <= csize && end == Wrap(place + 3 + i, maxsize)
        invariant result == x.lits[..i]
      {
        end := NextIndex(end);
        result := result + [elems[end]];
        i := i + 1;
      }
    }

    /** Read the record at the cursor position thislast, and drop it if this was its last reader. */
    method ReadClause(threadId: nat, thislast: nat, ghost k: nat) returns (threadOrigin: nat, result: seq<nat>)
      requires Valid() && threadId < nbThreads && h.cur[threadId] <= k < |h.log| && h.removed <= k
      requires forall j :: h.cur[threadId] <= j < k ==> h.log[j].origin == threadId
      requires h.log[k].origin != threadId && thislast == Wrap(last + Span(h.log, h.removed, k), maxsize)
      modifies this, elems
      ensures Valid() && h.log == old(h).log && h.removed >= old(h).removed
      ensures Sent(threadOrigin, result) == h.log[k]
      ensures got == old(got)[threadId := old(got)[threadId] + [h.log[k]]]
    {
      hide Consistent, ConsistentAt, Span, Others, Countdown, OldestWanted, Stored;
      ghost var r, h0 := R(), h;
      ReadKeeps(r, h, threadId, k);
      ReadWanted(h, threadId, k);
      BeforeRead(r, h, k);
      var pos := NextIndex(thislast);
      var csize := elems[pos];
      var left := elems[AddIndex(pos, 1)] - 1;
      elems[AddIndex(pos, 1)] := left;
      h := h.(cur := h.cur[threadId := k + 1]);
      assert R() == Counted(r, Span(h.log, h.removed, k), left);
      AfterRead(R(), h, h0.cur, k);
      var end;
      threadOrigin, result, end := CopyRecord(NextIndex(pos), csize, h.log[k], thislast);
      got := got[threadId := got[threadId] + [h.log[k]]];
      Conclude(threadId, thislast, end, left, k, h0);
    }

    /** Drop the record if it was the oldest and this was its last reader; then set the thread's cursor. */
    method Conclude(threadId: nat, previouslast: nat, end: nat, left: nat, ghost k: nat, ghost h0: History)
      requires elems.Length == maxsize && nbThreads > 0 && threadId < nbThreads && |h0.cur| == nbThreads
      requires Progressing(h0) && h0.cur[threadId] <= k < |h0.log| && h0.removed <= k
      requires h == h0.(cur := h0.cur[threadId := k + 1])
      requires ConsistentAt(R(), h, h0.cur) && left == Countdown(h.log, h.cur, k)
      requires previouslast == Wrap(last + Span(h.log, h.removed, k), maxsize)
      requires end == Wrap(last + Span(h.log, h.removed, k + 1), maxsize)
      requires k != h.removed || left > 0 ==> OldestWanted(h)
      requires Delivered()
      modifies this`last, this`queuesize, this`lastOfThread, this`h
      ensures Valid() && h.log == old(h).log && h.removed >= old(h).removed
    {
      hide ConsistentAt, Span, Others, Countdown, OldestWanted, Stored, Wrap, Progressing;
      OldestCursor(R(), h, h0.cur, k);
      SizesOf(R(), h, h0.cur);
      if last == previouslast && left == 0 {
        ghost var h1 := h;
        ghost var at := RemoveLastClause(h0.cur);
        DraggedSame(h0, threadId, k, h.cur, at, h.removed);
        LastCursor(R(), h, threadId);
        assert lastOfThread[threadId := last] == lastOfThread;
        lastOfThread := lastOfThread[threadId := last];
        assert Delivered();
        assert Consistent(R(), h);
      } else {
        MoveCursor(R(), h, h0, threadId, k);
        lastOfThread := lastOfThread[threadId := end];
      }
    }
  }
}
