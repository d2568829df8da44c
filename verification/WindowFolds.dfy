// engine/op_window.go, base/agg.go: an aggregate over each row's frame, folded afresh or carried along.
module WindowFolds {
  import opened Expr
  import opened WindowFrames
  import opened WindowSteps

  // The general path: fold the operands of the rows [beg, end) from nothing.
  function Fold<A>(update: (A, Value) -> A, init: A, vals: seq<Value>, beg: nat, end: nat): A
    requires beg <= end <= |vals|
  {
    if beg == end then init else update(Fold(update, init, vals, beg, end - 1), vals[end - 1])
  }

  // The general path, over any frame: every row it steps to, in order.
  function FoldRows<A>(update: (A, Value) -> A, init: A, vals: seq<Value>, rows: seq<int>): A
    requires forall k :: 0 <= k < |rows| ==> 0 <= rows[k] < |vals|
  {
    if rows == [] then init else update(FoldRows(update, init, vals, rows[..|rows| - 1]), vals[rows[|rows| - 1]])
  }

  ghost predicate Fits(frame: Span, n: int)
  {
    0 <= frame.beg <= frame.end <= n
  }

  // Neither end of the frame moves back from row to row.
  ghost predicate Slides(frames: seq<Span>, n: int)
  {
    && (forall p :: 0 <= p < |frames| ==> Fits(frames[p], n))
    && (forall p :: 0 < p < |frames| ==> frames[p - 1].beg <= frames[p].beg && frames[p - 1].end <= frames[p].end)
  }

  lemma {:induction false} RowsInside(frame: Span, excludes: seq<Span>, hi: int)
    ensures forall k :: 0 <= k < |Rows(frame, excludes, hi)| ==> InFrame(frame, excludes, Rows(frame, excludes, hi)[k])
    decreases if hi <= frame.beg then 0 else hi - frame.beg
  {
    if frame.beg < hi {
      RowsInside(frame, excludes, hi - 1);
    }
  }

  method Refold<A>(update: (A, Value) -> A, init: A, vals: seq<Value>, frame: Span, excludes: seq<Span>) returns (acc: A)
    requires SpansOrdered(excludes) && 0 <= frame.beg && frame.end <= |vals|
    ensures forall k :: 0 <= k < |FrameRows(frame, excludes)| ==> 0 <= FrameRows(frame, excludes)[k] < |vals|
    ensures acc == FoldRows(update, init, vals, FrameRows(frame, excludes))
  {
    ghost var rows, k := FrameRows(frame, excludes), 0;
    RowsInside(frame, excludes, frame.end);
    acc := init;
    var pos, ok := Next(frame, excludes, -1);
    NextByRank(frame, excludes, -1, pos, ok);
    while ok
      invariant 0 <= k <= |rows| && acc == FoldRows(update, init, vals, rows[..k])
      invariant if ok then k < |rows| && rows[k] == pos && Rank(frame, excludes, pos + 1) == k + 1 else k == |rows|
      decreases |rows| - k
    {
      acc := update(acc, vals[pos]);
      assert rows[..k + 1][..k] == rows[..k];
      ghost var was := pos;
      pos, ok := Next(frame, excludes, pos);
      NextByRank(frame, excludes, was, pos, ok);
      k := k + 1;
    }
    assert rows[..k] == rows;
  }

  // Without excluded spans that is the fold of [beg, end).
  lemma {:induction false} PlainRefold<A>(update: (A, Value) -> A, init: A, vals: seq<Value>, frame: Span, hi: int)
    requires 0 <= frame.beg <= hi <= frame.end <= |vals|
    ensures var rows := Rows(frame, [], hi);
            && (forall k :: 0 <= k < |rows| ==> 0 <= rows[k] < |vals|)
            && FoldRows(update, init, vals, rows) == Fold(update, init, vals, frame.beg, hi)
    decreases hi
  {
    RowsInside(frame, [], hi);
    if frame.beg < hi {
      PlainRefold(update, init, vals, frame, hi - 1);
      var rows, rest := Rows(frame, [], hi), Rows(frame, [], hi - 1);
      assert InFrame(frame, [], hi - 1);
      assert rows == rest + [hi - 1] && rows[..|rows| - 1] == rest;
    }
  }

  // All that a frame promises whatever its bounds: it begins at row 0 or later and ends with the last row
  // or before. One that ends where it begins, or before, has no rows.
  ghost predicate Within(frame: Span, n: int)
  {
    0 <= frame.beg && frame.end <= n
  }

  // The fresh fold of such a frame.
  function FreshFold<A>(update: (A, Value) -> A, init: A, vals: seq<Value>, frame: Span): A
    requires Within(frame, |vals|)
  {
    if frame.beg < frame.end then Fold(update, init, vals, frame.beg, frame.end) else init
  }

  method FoldAfresh<A>(update: (A, Value) -> A, init: A, vals: seq<Value>, frame: Span) returns (acc: A)
    requires Within(frame, |vals|)
    ensures acc == FreshFold(update, init, vals, frame)
  {
    acc := Refold(update, init, vals, frame, []);
    if frame.beg < frame.end {
      PlainRefold(update, init, vals, frame, frame.end);
    }
  }

  // ---------------------------------------------------------------- the carried left-anchored fold

  // One row of a frame that always begins at 0: only the rows that newly entered are folded in.
  method GrowTo<A>(update: (A, Value) -> A, ghost init: A, vals: seq<Value>, frame: Span, acc: A, folded: nat) returns (acc': A, folded': nat)
    requires frame.beg == 0 && frame.end <= |vals|
    requires folded <= |vals| && acc == Fold(update, init, vals, 0, folded)
    ensures folded' == Max(folded, frame.end) && acc' == Fold(update, init, vals, 0, folded')
  {
    acc', folded' := acc, folded;
    var stepPos, ok := folded - 1, true;
    while true
      invariant stepPos == folded' - 1 && folded <= folded' <= Max(folded, frame.end)
      invariant acc' == Fold(update, init, vals, 0, folded')
      decreases |vals| - folded'
    {
      stepPos, ok := Next(frame, [], stepPos);
      if !ok {
        if folded' < frame.end {
          assert InFrame(frame, [], folded');
        }
        break;
      }
      if folded' < stepPos {
        assert InFrame(frame, [], folded');
      }
      acc' := update(acc', vals[stepPos]);
      folded' := stepPos + 1;
    }
  }

  // Frames that begin at 0 and whose ends do not move back; the first ones may end before row 0.
  ghost predicate Grows(frames: seq<Span>, n: int)
  {
    && (forall p :: 0 <= p < |frames| ==> frames[p].beg == 0 && frames[p].end <= n)
    && (forall p :: 0 < p < |frames| ==> frames[p - 1].end <= frames[p].end)
  }

  // Over a partition the carried fold is the fresh fold at every row.
  method GrowingFold<A>(update: (A, Value) -> A, init: A, vals: seq<Value>, frames: seq<Span>) returns (accs: seq<A>)
    requires Grows(frames, |vals|)
    ensures |accs| == |frames|
    ensures forall p :: 0 <= p < |frames| ==> accs[p] == Fold(update, init, vals, 0, Max(0, frames[p].end))
  {
    accs := [];
    var acc, folded: nat := init, 0;
    for p := 0 to |frames|
      invariant |accs| == p && folded <= |vals| && acc == Fold(update, init, vals, 0, folded)
      invariant folded == if p == 0 then 0 else Max(0, frames[p - 1].end)
      invariant forall q :: 0 <= q < p ==> accs[q] == Fold(update, init, vals, 0, Max(0, frames[q].end))
    {
      acc, folded := GrowTo(update, init, vals, frames[p], acc, folded);
      accs := accs + [acc];
    }
  }

  // ---------------------------------------------------------------- the sliding COUNT

  function CountUpdate(c: int, v: Value): int
  {
    if Valued(v) then c + 1 else c
  }

  function CountOf(vals: seq<Value>, beg: nat, end: nat): int
    requires beg <= end <= |vals|
  {
    Fold(CountUpdate, 0, vals, beg, end)
  }

  lemma {:induction false} CountSplits(vals: seq<Value>, a: nat, b: nat, c: nat)
    requires a <= b <= c <= |vals|
    ensures CountOf(vals, a, c) == CountOf(vals, a, b) + CountOf(vals, b, c)
    decreases c
  {
    if b < c {
      CountSplits(vals, a, b, c - 1);
    }
  }

  // COUNT(x) is the number of rows whose x is neither MISSING nor NULL.
  lemma {:induction false} CountIs(vals: seq<Value>, beg: nat, end: nat)
    requires beg <= end <= |vals|
    ensures CountOf(vals, beg, end) == |set i | beg <= i < end && vals[i].Val? && !vals[i].j.Null?|
    decreases end
  {
    if beg < end {
      CountIs(vals, beg, end - 1);
      var before := set i | beg <= i < end - 1 && vals[i].Val? && !vals[i].j.Null?;
      var all := set i | beg <= i < end && vals[i].Val? && !vals[i].j.Null?;
      assert all == if Valued(vals[end - 1]) then before + {end - 1} else before;
    }
  }

  // ---------------------------------------------------------------- sliding over any frames

  // A loop from row a up to row b reads rows of the partition only.
  predicate ReadsInside(a: int, b: int, n: nat)
  {
    a < b ==> 0 <= a && b <= n
  }

  // What a run has come to, unless it asked for a row that is not there.
  datatype Outcome<S> = Done(s: S) | Outside

  function Before(frames: seq<Span>, p: int): Span
    requires 0 <= p <= |frames|
  {
    if p == 0 then Span(0, 0) else frames[p - 1]
  }

  // One row's move reads the rows that entered and those that left.
  predicate MoveInside(prev: Span, frame: Span, n: nat)
  {
    ReadsInside(prev.end, frame.end, n) && ReadsInside(prev.beg, frame.beg, n)
  }

  function CountBetween(vals: seq<Value>, a: int, b: int): int
    requires ReadsInside(a, b, |vals|)
  {
    if a < b then CountOf(vals, a, b) else 0
  }

  function CountMoved(vals: seq<Value>, count: int, prev: Span, frame: Span): Outcome<int>
  {
    if MoveInside(prev, frame, |vals|)
    then Done(count + CountBetween(vals, prev.end, frame.end) - CountBetween(vals, prev.beg, frame.beg))
    else Outside
  }

  // The running count after p rows; a failed read ends the run.
  function CountRun(vals: seq<Value>, frames: seq<Span>, p: nat): Outcome<int>
    requires p <= |frames|
  {
    if p == 0 then Done(0)
    else match CountRun(vals, frames, p - 1)
         case Done(c) => CountMoved(vals, c, Before(frames, p - 1), frames[p - 1])
         case Outside => Outside
  }

  lemma CountNext(vals: seq<Value>, a: int, i: int)
    requires a <= i && 0 <= i < |vals| && ReadsInside(a, i, |vals|)
    ensures ReadsInside(a, i + 1, |vals|) && CountBetween(vals, a, i + 1) == CountBetween(vals, a, i) + if Valued(vals[i]) then 1 else 0
  {
    assert CountOf(vals, a, i + 1) == CountUpdate(CountOf(vals, a, i), vals[i]);
  }

  // One row of a sliding frame: count the rows that entered, uncount those that left.
  method SlideCount(vals: seq<Value>, frame: Span, count: int, prev: Span) returns (r: Outcome<int>)
    ensures r == CountMoved(vals, count, prev, frame)
  {
    var count' := count;
    var i := prev.end;
    while i < frame.end
      invariant prev.end <= i <= Max(prev.end, frame.end) && ReadsInside(prev.end, i, |vals|) && count' == count + CountBetween(vals, prev.end, i)
    {
      if i < 0 || i >= |vals| {
        return Outside;
      }
      CountNext(vals, prev.end, i);
      if Valued(vals[i]) {
        count' := count' + 1;
      }
      i := i + 1;
    }
    ghost var entered := count';
    i := prev.beg;
    while i < frame.beg
      invariant prev.beg <= i <= Max(prev.beg, frame.beg) && ReadsInside(prev.beg, i, |vals|) && count' == entered - CountBetween(vals, prev.beg, i)
    {
      if i < 0 || i >= |vals| {
        return Outside;
      }
      CountNext(vals, prev.beg, i);
      if Valued(vals[i]) {
        count' := count' - 1;
      }
      i := i + 1;
    }
    r := Done(count');
  }

  lemma {:induction false} MoveIsFresh(vals: seq<Value>, prev: Span, frame: Span)
    requires Fits(prev, |vals|) && Fits(frame, |vals|) && prev.beg <= frame.beg && prev.end <= frame.end
    ensures CountMoved(vals, CountOf(vals, prev.beg, prev.end), prev, frame) == Done(CountOf(vals, frame.beg, frame.end))
  {
    CountSplits(vals, prev.beg, prev.end, frame.end);
    CountSplits(vals, prev.beg, frame.beg, frame.end);
  }

  // Over frames that slide within the partition the running count is the fresh one.
  lemma {:induction false} RunIsFresh(vals: seq<Value>, frames: seq<Span>, p: nat)
    requires Slides(frames, |vals|) && p <= |frames|
    ensures CountRun(vals, frames, p) == Done(CountOf(vals, Before(frames, p).beg, Before(frames, p).end))
    decreases p
  {
    if p > 0 {
      RunIsFresh(vals, frames, p - 1);
      MoveIsFresh(vals, Before(frames, p - 1), frames[p - 1]);
    }
  }

  method SlidingCount(vals: seq<Value>, frames: seq<Span>) returns (counts: seq<Outcome<int>>)
    ensures |counts| == |frames|
    ensures forall p: nat :: p < |frames| ==> counts[p] == CountRun(vals, frames, p + 1)
    ensures Slides(frames, |vals|) ==> forall p :: 0 <= p < |frames| ==> counts[p] == Done(CountOf(vals, frames[p].beg, frames[p].end))
  {
    counts := [];
    var run := Done(0);
    for p: nat := 0 to |frames|
      invariant |counts| == p && run == CountRun(vals, frames, p)
      invariant forall q: nat :: q < p ==> counts[q] == CountRun(vals, frames, q + 1)
    {
      if run.Done? {
        run := SlideCount(vals, frames[p], run.s, Before(frames, p));
      }
      counts := counts + [run];
    }
    if Slides(frames, |vals|) {
      forall p: nat | p < |frames| ensures counts[p] == Done(CountOf(vals, frames[p].beg, frames[p].end)) {
        RunIsFresh(vals, frames, p + 1);
      }
    }
  }
}
