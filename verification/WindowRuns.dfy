// engine/op_window.go: frames and folds together, over one partition: what each window aggregate comes to.
module WindowRuns {
  import opened Json
  import opened Expr
  import opened WindowEdges
  import opened WindowBounds
  import opened WindowFrames
  import WindowSteps
  import opened WindowFolds
  import opened WindowMinMax
  import opened WindowDeque
  import opened WindowSums

  // Bounds with which every frame of every partition lies within it: any RANGE frame, and ROWS and GROUPS
  // frames whose ends are in order, and for ROWS not beyond the first or last row.
  predicate FramesFit(kind: Kind, beg: Bound, end: Bound)
  {
    match kind
    case Rows => (beg.Num? ==> beg.n <= 1) && (end.Num? ==> end.n >= -1) && (beg.Num? && end.Num? ==> beg.n <= end.n + 1)
    case Groups => beg.Num? && end.Num? ==> beg.n <= end.n
    case Range => true
  }

  lemma {:induction false} GroupsFrameFits(col: seq<Cell>, pos: int, beg: Bound, end: Bound)
    requires 0 <= pos < |col| && (beg.Num? && end.Num? ==> beg.n <= end.n)
    ensures Fits(FrameAt(Groups, col, pos, beg, end), |col|)
  {
    if beg.Num? && end.Num? {
      var b, e := GroupStep(col, pos, beg.n).0, GroupStep(col, pos, end.n).0;
      GroupStepIs(col, pos, beg.n);
      GroupStepIs(col, pos, end.n);
      GroupNoGrows(col, pos, |col| - 1);
      if e < b {
        GroupNoGrows(col, e, b);
        if beg.n < 0 {
          GroupNoGrows(col, e, b - 1);
        } else {
          GroupNoGrows(col, e + 1, b);
        }
      }
    }
  }

  lemma {:induction false} FrameFits(kind: Kind, col: seq<Cell>, pos: int, beg: Bound, end: Bound)
    requires 0 <= pos < |col| && FramesFit(kind, beg, end)
    ensures Fits(FrameAt(kind, col, pos, beg, end), |col|)
  {
    if kind == Groups {
      GroupsFrameFits(col, pos, beg, end);
    }
  }

  // With ROWS they are the only such bounds: another pair has a frame outside its partition.
  lemma {:induction false} RowsFramesFitIff(col: seq<Cell>, beg: Bound, end: Bound)
    requires |col| > 0
    ensures FramesFit(Rows, beg, end) <==> forall pos :: 0 <= pos < |col| ==> Fits(FrameAt(Rows, col, pos, beg, end), |col|)
  {
    if forall pos :: 0 <= pos < |col| ==> Fits(FrameAt(Rows, col, pos, beg, end), |col|) {
      assert Fits(FrameAt(Rows, col, 0, beg, end), |col|) && Fits(FrameAt(Rows, col, |col| - 1, beg, end), |col|);
    }
  }

  lemma {:induction false} PartitionSlides(kind: Kind, col: seq<Cell>, beg: Bound, end: Bound)
    requires FramesFit(kind, beg, end) && (kind == Range ==> SortedColumn(col))
    ensures Slides(AllFrames(kind, col, beg, end), |col|)
  {
    var frames := AllFrames(kind, col, beg, end);
    forall p | 0 <= p < |frames| ensures Fits(frames[p], |col|) {
      FrameFits(kind, col, p, beg, end);
    }
    forall p | 0 < p < |frames| ensures frames[p - 1].beg <= frames[p].beg && frames[p - 1].end <= frames[p].end {
      FramesSlide(kind, col, p, beg, end);
    }
  }

  lemma {:induction false} PartitionGrows(kind: Kind, col: seq<Cell>, beg: Bound, end: Bound)
    requires beg.Unbounded? && (kind == Range ==> SortedColumn(col))
    ensures Grows(AllFrames(kind, col, beg, end), |col|)
  {
    var frames := AllFrames(kind, col, beg, end);
    forall p | 0 < p < |frames| ensures frames[p - 1].end <= frames[p].end {
      FramesSlide(kind, col, p, beg, end);
    }
  }

  // UNBOUNDED PRECEDING, whatever the other end: any aggregate's carried fold.
  method GrowOver<A>(window: WindowFrame, partition: seq<Cell>, update: (A, Value) -> A, init: A, vals: seq<Value>) returns (accs: seq<A>)
    requires |vals| == |partition| && window.beg.Unbounded? && window.exclude == NoOthers && (window.kind == Range ==> SortedColumn(partition))
    modifies window
    ensures |accs| == |vals|
    ensures forall p :: 0 <= p < |vals| ==>
              accs[p] == Fold(update, init, vals, 0, WindowSteps.Max(0, EndOf(window.kind, partition, p, window.end)))
  {
    var frames, exclusions := window.WalkPartition(partition);
    PartitionGrows(window.kind, partition, window.beg, window.end);
    accs := GrowingFold(update, init, vals, frames);
  }

  // Any aggregate over any frames with any exclusion, folded afresh at every row: exactly the rows of the frame
  // that the exclusion leaves, in order.
  method RefoldOver<A>(window: WindowFrame, partition: seq<Cell>, update: (A, Value) -> A, init: A, vals: seq<Value>)
    returns (accs: seq<A>)
    requires |vals| == |partition| && (window.kind == Range ==> SortedColumn(partition))
    requires window.exclude == Group || window.exclude == Ties ==> window.kind == Groups
    modifies window
    ensures |accs| == |vals|
    ensures forall p :: 0 <= p < |vals| ==>
              Refolded(update, init, vals, window.exclude, partition, p, FrameAt(window.kind, partition, p, window.beg, window.end), accs[p])
  {
    var frames, exclusions := window.WalkPartition(partition);
    FramesAreWithin(window.kind, partition, window.beg, window.end);
    ghost var kind, exclude, beg, end := window.kind, window.exclude, window.beg, window.end;
    accs := [];
    for p: nat := 0 to |partition|
      invariant |accs| == p
      invariant forall q :: 0 <= q < p ==> Refolded(update, init, vals, exclude, partition, q, FrameAt(kind, partition, q, beg, end), accs[q])
    {
      var acc := RefoldAt(update, init, vals, exclude, partition, p, frames[p], exclusions[p]);
      accs := accs + [acc];
    }
  }

  method RefoldAt<A>(update: (A, Value) -> A, init: A, vals: seq<Value>, ghost exclude: Exclude, ghost col: seq<Cell>, ghost p: int, frame: Span, spans: seq<Span>)
    returns (acc: A)
    requires 0 <= p < |col| == |vals| && Within(frame, |col|) && Excludes(exclude, col, p, spans)
    ensures Refolded(update, init, vals, exclude, col, p, frame, acc)
  {
    acc := Refold(update, init, vals, frame, spans);
    FrameRowsHas(exclude, col, p, frame, spans);
    assert FrameHas(exclude, col, p, frame, WindowSteps.FrameRows(frame, spans));
  }

  // acc folds the operands of exactly the rows that the frame has and the exclusion leaves, in order.
  ghost predicate Refolded<A>(update: (A, Value) -> A, init: A, vals: seq<Value>, exclude: Exclude, col: seq<Cell>, p: int, frame: Span, acc: A)
    requires 0 <= p < |col| == |vals| && Within(frame, |col|)
  {
    exists rows: seq<int> :: FrameHas(exclude, col, p, frame, rows) &&
      (forall k :: 0 <= k < |rows| ==> 0 <= rows[k] < |vals|) && acc == FoldRows(update, init, vals, rows)
  }

  // What an exclusion leaves in: all, all but the current row, the other groups, or those and the row itself.
  ghost predicate Stays(exclude: Exclude, col: seq<Cell>, p: int, i: int)
    requires 0 <= p < |col| && 0 <= i < |col|
  {
    match exclude
    case NoOthers => true
    case CurrentRow => i != p
    case Group => GroupNo(col, i) != GroupNo(col, p)
    case Ties => GroupNo(col, i) != GroupNo(col, p) || i == p
  }

  // The rows of a frame, ascending, without those excluded.
  ghost predicate FrameHas(exclude: Exclude, col: seq<Cell>, p: int, frame: Span, rows: seq<int>)
    requires 0 <= p < |col| && Within(frame, |col|)
  {
    && (forall k, l :: 0 <= k < l < |rows| ==> rows[k] < rows[l])
    && forall i :: i in rows <==> (frame.beg <= i < frame.end && Stays(exclude, col, p, i))
  }

  lemma {:induction false} FrameRowsHas(exclude: Exclude, col: seq<Cell>, p: int, frame: Span, spans: seq<Span>)
    requires 0 <= p < |col| && Within(frame, |col|) && Excludes(exclude, col, p, spans)
    ensures FrameHas(exclude, col, p, frame, WindowSteps.FrameRows(frame, spans))
  {
    WindowSteps.FrameRowsAre(frame, spans, frame.end);
  }

  // Whatever the bounds, what every frame is.
  lemma {:induction false} FramesAreWithin(kind: Kind, col: seq<Cell>, beg: Bound, end: Bound)
    ensures forall p :: 0 <= p < |col| ==> Within(AllFrames(kind, col, beg, end)[p], |col|)
  {
  }

  // The sliding COUNT of a row, and the fresh one.
  function CountAt(kind: Kind, col: seq<Cell>, beg: Bound, end: Bound, vals: seq<Value>, p: nat): Outcome<int>
    requires p < |col|
  {
    CountRun(vals, AllFrames(kind, col, beg, end), p + 1)
  }

  function FreshCount(vals: seq<Value>, frame: Span): int
    requires Within(frame, |vals|)
  {
    FreshFold(CountUpdate, 0, vals, frame)
  }

  method CountOver(window: WindowFrame, partition: seq<Cell>, vals: seq<Value>) returns (counts: seq<Outcome<int>>)
    requires |vals| == |partition| && window.exclude == NoOthers && (window.kind == Range ==> SortedColumn(partition))
    modifies window
    ensures |counts| == |vals|
    ensures forall p: nat :: p < |vals| ==> counts[p] == CountAt(window.kind, partition, window.beg, window.end, vals, p)
    ensures FramesFit(window.kind, window.beg, window.end) ==>
              forall p :: 0 <= p < |vals| ==> counts[p] == Done(FreshCount(vals, FrameAt(window.kind, partition, p, window.beg, window.end)))
  {
    var frames, exclusions := window.WalkPartition(partition);
    if FramesFit(window.kind, window.beg, window.end) {
      PartitionSlides(window.kind, partition, window.beg, window.end);
    }
    counts := SlidingCount(vals, frames);
  }

  // Bounds with which no ROWS frame ends before row 0; no RANGE or GROUPS frame does.
  predicate EndsFit(kind: Kind, end: Bound)
  {
    kind == Rows && end.Num? ==> end.n >= -1
  }

  lemma {:induction false} PartitionAdvances(kind: Kind, col: seq<Cell>, beg: Bound, end: Bound)
    requires EndsFit(kind, end) && (kind == Range ==> SortedColumn(col))
    ensures Advances(AllFrames(kind, col, beg, end), |col|)
  {
    var frames := AllFrames(kind, col, beg, end);
    forall p | 0 < p < |frames| ensures frames[p - 1].beg <= frames[p].beg && frames[p - 1].end <= frames[p].end {
      FramesSlide(kind, col, p, beg, end);
    }
  }

  method BestOver(window: WindowFrame, partition: seq<Cell>, isMax: bool, vals: seq<Value>) returns (results: seq<Json>)
    requires |vals| == |partition| && EndsFit(window.kind, window.end) && window.exclude == NoOthers
    requires (window.kind == Range ==> SortedColumn(partition)) && Comparable(vals)
    modifies window
    ensures |results| == |vals|
    ensures forall p :: 0 <= p < |vals| ==>
              var frame := FrameAt(window.kind, partition, p, window.beg, window.end);
              SameBest(isMax, vals, frame, results[p]) && ExtremeOf(isMax, vals, frame, results[p])
  {
    var frames, exclusions := window.WalkPartition(partition);
    PartitionAdvances(window.kind, partition, window.beg, window.end);
    results := SlidingBest(isMax, vals, frames);
  }

  function SumsAt(fl: real -> real, kind: Kind, col: seq<Cell>, beg: Bound, end: Bound, vals: seq<Value>, p: nat): Outcome<SumRow>
    requires p < |col| == |vals|
  {
    SumRowAt(fl, vals, FrameAt(kind, col, p, beg, end), SumRun(fl, vals, AllFrames(kind, col, beg, end), p + 1))
  }

  method SumsOver(window: WindowFrame, partition: seq<Cell>, fl: real -> real, vals: seq<Value>) returns (rows: seq<Outcome<SumRow>>)
    requires |vals| == |partition| && window.exclude == NoOthers && (window.kind == Range ==> SortedColumn(partition))
    modifies window
    ensures |rows| == |vals|
    ensures forall p: nat :: p < |vals| ==> rows[p] == SumsAt(fl, window.kind, partition, window.beg, window.end, vals, p)
    ensures forall p :: 0 <= p < |vals| && rows[p].Done? && !rows[p].s.trusted ==>
              FreshAt(fl, vals, FrameAt(window.kind, partition, p, window.beg, window.end), rows[p])
    ensures RoundsExactly(fl) && SmallOver(window.kind, partition, window.beg, window.end, vals) ==>
              forall p :: 0 <= p < |vals| ==> FreshAt(fl, vals, FrameAt(window.kind, partition, p, window.beg, window.end), rows[p]) && rows[p].s.trusted
  {
    var frames, exclusions := window.WalkPartition(partition);
    rows := SlidingSums(fl, vals, frames);
  }

  // The frames slide within the partition, and over each two successive ones the operands stay small.
  ghost predicate SmallOver(kind: Kind, col: seq<Cell>, beg: Bound, end: Bound, vals: seq<Value>)
  {
    |vals| == |col| && Slides(AllFrames(kind, col, beg, end), |vals|) && SmallSlides(vals, AllFrames(kind, col, beg, end))
  }

  // ---------------------------------------------------------------- exactly which bounds slide

  // With these bounds the sliding COUNT is the fresh count at every row of a partition.
  ghost predicate CountsRight(kind: Kind, beg: Bound, end: Bound, col: seq<Cell>, vals: seq<Value>)
  {
    |vals| == |col| && (kind == Range ==> SortedColumn(col)) ==>
      forall p: nat :: p < |col| ==> CountAt(kind, col, beg, end, vals, p) == Done(FreshCount(vals, FrameAt(kind, col, p, beg, end)))
  }

  function Column(n: nat): (col: seq<Cell>)
    ensures |col| == n
  {
    seq(n, i => Other(""))
  }

  function Ones(n: nat): (vals: seq<Value>)
    ensures |vals| == n
  {
    seq(n, i => Int(1))
  }

  lemma {:induction false} CountsRightWhenFit(kind: Kind, beg: Bound, end: Bound, col: seq<Cell>, vals: seq<Value>)
    requires FramesFit(kind, beg, end)
    ensures CountsRight(kind, beg, end, col, vals)
  {
    if |vals| == |col| && (kind == Range ==> SortedColumn(col)) {
      var frames := AllFrames(kind, col, beg, end);
      PartitionSlides(kind, col, beg, end);
      forall p: nat | p < |col| ensures CountAt(kind, col, beg, end, vals, p) == Done(FreshCount(vals, FrameAt(kind, col, p, beg, end))) {
        RunIsFresh(vals, frames, p + 1);
      }
    }
  }

  // A start two or more after the current row: the only row of a partition loses rows that are not there.
  lemma {:induction false} StartsTooLate(beg: Bound, end: Bound)
    requires beg.Num? && beg.n > 1
    ensures CountAt(Rows, Column(1), beg, end, Ones(1), 0) == Outside
    ensures forall fl :: SumRun(fl, Ones(1), AllFrames(Rows, Column(1), beg, end), 1) == Outside
  {
    var frames := AllFrames(Rows, Column(1), beg, end);
    assert CountRun(Ones(1), frames, 0) == Done(0);
    assert !MoveInside(Before(frames, 0), frames[0], 1);
  }

  // An end two or more before the current row: the second row reads on from a negative position.
  lemma {:induction false} EndsTooEarly(beg: Bound, end: Bound)
    requires end.Num? && end.n < -1
    ensures CountAt(Rows, Column(2), beg, end, Ones(2), 1) == Outside
    ensures forall fl :: SumRun(fl, Ones(2), AllFrames(Rows, Column(2), beg, end), 2) == Outside
    ensures !ReadsInside(AllFrames(Rows, Column(2), beg, end)[0].end, AllFrames(Rows, Column(2), beg, end)[1].end, 2)
  {
    var frames := AllFrames(Rows, Column(2), beg, end);
    assert !MoveInside(Before(frames, 1), frames[1], 2);
  }

  // 1 FOLLOWING AND 1 PRECEDING: the only row leaves without having entered.
  lemma {:induction false} LeavesUnentered(beg: Bound, end: Bound)
    requires beg.Num? && end.Num? && beg.n == 1 && end.n == -1
    ensures CountAt(Rows, Column(1), beg, end, Ones(1), 0) == Done(-1) && FreshCount(Ones(1), FrameAt(Rows, Column(1), 0, beg, end)) == 0
  {
    var frames := AllFrames(Rows, Column(1), beg, end);
    assert frames[0] == Span(1, 0) && CountRun(Ones(1), frames, 0) == Done(0);
    assert CountOf(Ones(1), 0, 1) == CountUpdate(CountOf(Ones(1), 0, 0), Ones(1)[0]);
  }

  // A partition whose last two rows are peers, and one whose first two are.
  function LastTwoPeers(n: nat): (col: seq<Cell>)
    ensures |col| == n + 2
  {
    seq(n + 2, i => Cell.Number("", (if i < n then i else n) as real))
  }

  function FirstTwoPeers(n: nat): (col: seq<Cell>)
    ensures |col| == n + 2
  {
    seq(n + 2, i => Cell.Number("", (if i == 0 then 1 else i) as real))
  }

  lemma {:induction false} LastTwoGroups(n: nat, i: nat)
    requires i < n + 2
    ensures GroupNo(LastTwoPeers(n), i) == if i < n then i else n
    decreases i
  {
    if i > 0 {
      LastTwoGroups(n, i - 1);
    }
  }

  lemma {:induction false} FirstTwoGroups(n: nat, i: nat)
    requires i < n + 2
    ensures GroupNo(FirstTwoPeers(n), i) == if i == 0 then 0 else i - 1
    decreases i
  {
    if i > 0 {
      FirstTwoGroups(n, i - 1);
    }
  }

  // GROUPS bounds out of order: some row's frame ends before it begins, with both ends in the partition.
  lemma {:induction false} GroupsCross(beg: Bound, end: Bound) returns (col: seq<Cell>, p: nat)
    requires beg.Num? && end.Num? && end.n < beg.n
    ensures p < |col| && FrameAt(Groups, col, p, beg, end).end < FrameAt(Groups, col, p, beg, end).beg
  {
    if beg.n >= 0 {
      var n := beg.n;
      col, p := LastTwoPeers(n), 0;
      LastTwoGroups(n, 0);
      LastTwoGroups(n, n + 1);
      GroupStepIs(col, 0, beg.n);
      GroupStepIs(col, 0, end.n);
      LastTwoGroups(n, GroupStep(col, 0, beg.n).0);
      LastTwoGroups(n, GroupStep(col, 0, end.n).0);
      assert col[n] == col[n + 1];
    } else {
      var n := -end.n;
      col, p := FirstTwoPeers(n), n + 1;
      FirstTwoGroups(n, n + 1);
      GroupStepIs(col, p, beg.n);
      GroupStepIs(col, p, end.n);
      FirstTwoGroups(n, GroupStep(col, p, beg.n).0);
      FirstTwoGroups(n, GroupStep(col, p, end.n).0);
      assert col[0] == col[1];
    }
  }

  function Zeros(n: nat): (vals: seq<Value>)
    ensures |vals| == n
  {
    seq(n, i => Int(0))
  }

  lemma {:induction false} ZerosCount(n: nat, a: nat, b: nat)
    requires a <= b <= n
    ensures CountOf(Zeros(n), a, b) == b - a
    decreases b
  {
    if a < b {
      ZerosCount(n, a, b - 1);
    }
  }

  // With both ends in the partition the running count is the two ends' difference, be it negative.
  lemma {:induction false} CountTelescopes(frames: seq<Span>, n: nat, p: nat)
    requires Advances(frames, n) && (forall q :: 0 <= q < |frames| ==> frames[q].beg <= n) && p <= |frames|
    ensures CountRun(Zeros(n), frames, p) == Done(Before(frames, p).end - Before(frames, p).beg)
    decreases p
  {
    if p > 0 {
      CountTelescopes(frames, n, p - 1);
      var prev, frame := Before(frames, p - 1), frames[p - 1];
      ZerosCount(n, prev.end, frame.end);
      ZerosCount(n, prev.beg, frame.beg);
    }
  }

  lemma {:induction false} GroupsAdvance(beg: Bound, end: Bound, col: seq<Cell>)
    ensures Advances(AllFrames(Groups, col, beg, end), |col|)
    ensures forall q :: 0 <= q < |col| ==> AllFrames(Groups, col, beg, end)[q].beg <= |col|
  {
    PartitionAdvances(Groups, col, beg, end);
    forall q | 0 <= q < |col| ensures FrameAt(Groups, col, q, beg, end).beg <= |col| {
    }
  }

  lemma {:induction false} CrossedCountAt(frames: seq<Span>, n: nat, p: nat)
    requires Advances(frames, n) && (forall q :: 0 <= q < |frames| ==> frames[q].beg <= n) && p < |frames| && frames[p].end < frames[p].beg
    ensures CountRun(Zeros(n), frames, p + 1) != Done(FreshCount(Zeros(n), frames[p]))
  {
    CountTelescopes(frames, n, p + 1);
  }

  lemma {:induction false} CrossedCount(beg: Bound, end: Bound, col: seq<Cell>, p: nat)
    requires p < |col| && FrameAt(Groups, col, p, beg, end).end < FrameAt(Groups, col, p, beg, end).beg
    ensures !CountsRight(Groups, beg, end, col, Zeros(|col|))
  {
    var frames := AllFrames(Groups, col, beg, end);
    GroupsAdvance(beg, end, col);
    CrossedCountAt(frames, |col|, p);
    assert CountAt(Groups, col, beg, end, Zeros(|col|), p) != Done(FreshCount(Zeros(|col|), frames[p]));
  }

  // Of bounds with a numbered start: the sliding COUNT is right on every partition exactly when they fit.
  lemma {:induction false} SlidingCountIsRightIff(kind: Kind, beg: Bound, end: Bound)
    requires beg.Num?
    ensures FramesFit(kind, beg, end) <==> forall col: seq<Cell>, vals: seq<Value> :: CountsRight(kind, beg, end, col, vals)
  {
    if FramesFit(kind, beg, end) {
      forall col: seq<Cell>, vals: seq<Value> ensures CountsRight(kind, beg, end, col, vals) {
        CountsRightWhenFit(kind, beg, end, col, vals);
      }
    } else if kind == Groups {
      var col, p := GroupsCross(beg, end);
      CrossedCount(beg, end, col, p);
      assert !CountsRight(kind, beg, end, col, Zeros(|col|));
    } else if beg.n > 1 {
      StartsTooLate(beg, end);
      assert !CountsRight(kind, beg, end, Column(1), Ones(1));
    } else if end.n < -1 {
      EndsTooEarly(beg, end);
      assert !CountsRight(kind, beg, end, Column(2), Ones(2));
    } else {
      LeavesUnentered(beg, end);
      assert !CountsRight(kind, beg, end, Column(1), Ones(1));
    }
  }

  // Likewise SUM and AVG, of integers that total less than 2^53 in absolute value.
  ghost predicate SumsRight(fl: real -> real, kind: Kind, beg: Bound, end: Bound, col: seq<Cell>, vals: seq<Value>)
  {
    |vals| == |col| && (kind == Range ==> SortedColumn(col)) && Small(vals, 0, |vals|) ==>
      forall p: nat :: p < |col| ==> FreshAt(fl, vals, FrameAt(kind, col, p, beg, end), SumsAt(fl, kind, col, beg, end, vals, p))
  }

  lemma {:induction false} SumsRightWhenFit(fl: real -> real, kind: Kind, beg: Bound, end: Bound, col: seq<Cell>, vals: seq<Value>)
    requires FramesFit(kind, beg, end) && RoundsExactly(fl)
    ensures SumsRight(fl, kind, beg, end, col, vals)
  {
    if |vals| == |col| && (kind == Range ==> SortedColumn(col)) && Small(vals, 0, |vals|) {
      var frames := AllFrames(kind, col, beg, end);
      PartitionSlides(kind, col, beg, end);
      forall p | 0 <= p < |frames| ensures Small(vals, Before(frames, p).beg, frames[p].end) {
        SmallWithin(vals, 0, Before(frames, p).beg, frames[p].end, |vals|);
      }
      forall p: nat | p < |col| ensures FreshAt(fl, vals, frames[p], SumsAt(fl, kind, col, beg, end, vals, p)) {
        SmallRowsAreFresh(fl, vals, frames, p);
      }
    }
  }

  lemma {:induction false} ZerosAreSmall(n: nat, a: nat, b: nat)
    requires a <= b <= n
    ensures Small(Zeros(n), a, b)
    decreases b
  {
    WholeInt(0, 0.0);
    if a < b {
      ZerosAreSmall(n, a, b - 1);
    }
  }

  lemma {:induction false} ZerosEnter(fl: real -> real, k: int, n: nat, a: nat, b: nat)
    requires a <= b <= n && RoundsExactly(fl)
    ensures EnterAll(fl, SumState(0.0, k, k, false), Zeros(n), a, b) == SumState(0.0, k + (b - a), k + (b - a), false)
    ensures LeaveAll(fl, SumState(0.0, k, k, false), Zeros(n), a, b) == SumState(0.0, k - (b - a), k - (b - a), false)
    decreases b
  {
    WholeInt(0, 0.0);
    if a < b {
      ZerosEnter(fl, k, n, a, b - 1);
    }
  }

  lemma {:induction false} SumTelescopes(fl: real -> real, frames: seq<Span>, n: nat, p: nat)
    requires RoundsExactly(fl) && Advances(frames, n) && (forall q :: 0 <= q < |frames| ==> frames[q].beg <= n) && p <= |frames|
    ensures var k := Before(frames, p).end - Before(frames, p).beg;
            SumRun(fl, Zeros(n), frames, p) == Done(SumState(0.0, k, k, false))
    decreases p
  {
    if p > 0 {
      SumTelescopes(fl, frames, n, p - 1);
      ZerosMove(fl, n, Before(frames, p - 1), frames[p - 1]);
    }
  }

  lemma {:induction false} ZerosMove(fl: real -> real, n: nat, prev: Span, frame: Span)
    requires RoundsExactly(fl) && EndsInside(prev, n) && EndsInside(frame, n) && prev.beg <= frame.beg <= n && prev.end <= frame.end
    ensures var k, k' := prev.end - prev.beg, frame.end - frame.beg;
            MoveInside(prev, frame, n) && Slid(fl, SumState(0.0, k, k, false), Zeros(n), prev, frame) == SumState(0.0, k', k', false)
  {
    var k := prev.end - prev.beg;
    ZerosEnter(fl, k, n, prev.end, frame.end);
    ZerosEnter(fl, k + (frame.end - prev.end), n, prev.beg, frame.beg);
  }

  lemma {:induction false} CrossedSum(fl: real -> real, beg: Bound, end: Bound, col: seq<Cell>, p: nat)
    requires RoundsExactly(fl) && p < |col| && FrameAt(Groups, col, p, beg, end).end < FrameAt(Groups, col, p, beg, end).beg
    ensures !SumsRight(fl, Groups, beg, end, col, Zeros(|col|))
  {
    var frames, vals := AllFrames(Groups, col, beg, end), Zeros(|col|);
    GroupsAdvance(beg, end, col);
    SumTelescopes(fl, frames, |col|, p + 1);
    ZerosAreSmall(|col|, 0, |col|);
    assert SumsAt(fl, Groups, col, beg, end, vals, p).s.sum == Sum(0.0);
    assert FreshSums(fl, vals, frames[p]).0 == NoNumber;
  }

  lemma {:induction false} OnesAreSmall(n: nat)
    requires n <= 2
    ensures Small(Ones(n), 0, n)
  {
    var vals := Ones(n);
    WholeInt(1, 1.0);
    assert AbsTotal(vals, 0, 0) == 0.0;
    assert n >= 1 ==> AbsTotal(vals, 0, 1) == 1.0;
    assert n >= 2 ==> AbsTotal(vals, 0, 2) == 2.0;
  }

  lemma {:induction false} SumLeavesUnentered(fl: real -> real, beg: Bound, end: Bound)
    requires RoundsExactly(fl) && beg.Num? && end.Num? && beg.n == 1 && end.n == -1
    ensures SumsAt(fl, Rows, Column(1), beg, end, Ones(1), 0) == Done(SumRow(Sum(-1.0), Sum(fl(-1.0 / -1.0)), true))
    ensures FreshSums(fl, Ones(1), FrameAt(Rows, Column(1), 0, beg, end)) == (NoNumber, NoNumber)
  {
    var frames, vals := AllFrames(Rows, Column(1), beg, end), Ones(1);
    assert frames[0] == Span(1, 0) && SumRun(fl, vals, frames, 0) == Done(Zero);
    OneEach(fl, Zero, vals, 0);
    WholeInt(-1, -1.0);
    assert Leave(fl, Zero, vals[0]) == SumState(-1.0, -1, -1, false);
    assert SumRun(fl, vals, frames, 1) == Done(Leave(fl, Zero, vals[0]));
  }

  lemma {:induction false} SlidingSumsAreRightIff(fl: real -> real, kind: Kind, beg: Bound, end: Bound)
    requires beg.Num? && RoundsExactly(fl)
    ensures FramesFit(kind, beg, end) <==> forall col: seq<Cell>, vals: seq<Value> :: SumsRight(fl, kind, beg, end, col, vals)
  {
    OnesAreSmall(1);
    OnesAreSmall(2);
    if FramesFit(kind, beg, end) {
      forall col: seq<Cell>, vals: seq<Value> ensures SumsRight(fl, kind, beg, end, col, vals) {
        SumsRightWhenFit(fl, kind, beg, end, col, vals);
      }
    } else if kind == Groups {
      var col, p := GroupsCross(beg, end);
      CrossedSum(fl, beg, end, col, p);
      assert !SumsRight(fl, kind, beg, end, col, Zeros(|col|));
    } else if beg.n > 1 {
      StartsTooLate(beg, end);
      assert SumRun(fl, Ones(1), AllFrames(Rows, Column(1), beg, end), 1) == Outside;
      assert SumsAt(fl, Rows, Column(1), beg, end, Ones(1), 0) == Outside;
      assert !SumsRight(fl, kind, beg, end, Column(1), Ones(1));
    } else if end.n < -1 {
      EndsTooEarly(beg, end);
      assert SumRun(fl, Ones(2), AllFrames(Rows, Column(2), beg, end), 2) == Outside;
      assert SumsAt(fl, Rows, Column(2), beg, end, Ones(2), 1) == Outside;
      assert !SumsRight(fl, kind, beg, end, Column(2), Ones(2));
    } else {
      SumLeavesUnentered(fl, beg, end);
      assert !SumsRight(fl, kind, beg, end, Column(1), Ones(1));
    }
  }

  // MIN and MAX read entering rows only: no read leaves the partition exactly when no frame ends before row 0.
  ghost predicate EntersInside(beg: Bound, end: Bound, col: seq<Cell>)
  {
    var frames := AllFrames(Rows, col, beg, end);
    forall p :: 0 <= p < |frames| ==> ReadsInside(Before(frames, p).end, frames[p].end, |col|)
  }

  lemma {:induction false} SlidingBestReadsIff(beg: Bound, end: Bound)
    ensures EndsFit(Rows, end) <==> forall col: seq<Cell> :: EntersInside(beg, end, col)
  {
    if EndsFit(Rows, end) {
      forall col: seq<Cell> ensures EntersInside(beg, end, col) {
        PartitionAdvances(Rows, col, beg, end);
      }
    } else {
      EndsTooEarly(beg, end);
      var frames := AllFrames(Rows, Column(2), beg, end);
      assert !ReadsInside(Before(frames, 1).end, frames[1].end, 2);
      assert !EntersInside(beg, end, Column(2));
    }
  }
}
