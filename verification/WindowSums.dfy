// base/agg_window.go, engine/op_window.go: SUM and AVG over a sliding frame, by adding the rows that enter
// and subtracting those that leave. A float64 addition is the exact one rounded by fl.
module WindowSums {
  import opened Json
  import opened Expr
  import opened WindowFrames
  import WindowSteps
  import opened WindowFolds

  // 2^53
  const LIMIT: real := 9007199254740992.0

  predicate Whole(x: real)
  {
    x == x.Floor as real
  }

  // float64 holds every integer of up to 53 bits.
  ghost predicate RoundsExactly(fl: real -> real)
  {
    forall x: real :: Whole(x) && -LIMIT <= x <= LIMIT ==> fl(x) == x
  }

  function NumberOf(v: Value): real
  {
    if v.Val? && v.j.Number? then v.j.v else 0.0
  }

  predicate IsNumber(v: Value)
  {
    v.Val? && v.j.Number?
  }

  // AggSum's accumulator; its NaN sentinel says that no number was seen.
  datatype SumAcc = NoNumber | Sum(s: real)

  function SumUpdate(fl: real -> real): (SumAcc, Value) -> SumAcc
  {
    (acc: SumAcc, v: Value) =>
      if IsNumber(v) then Sum(fl((if acc.Sum? then acc.s else 0.0) + v.j.v)) else acc
  }

  // The fields of WindowFrame that the sliding SUM keeps.
  datatype SumState = SumState(sSum: real, sNumCount: int, sHasCount: int, sEverUnsafe: bool)

  const Zero: SumState := SumState(0.0, 0, 0, false)

  function Enter(fl: real -> real, st: SumState, v: Value): SumState
  {
    var st' := if Valued(v) then st.(sHasCount := st.sHasCount + 1) else st;
    if !IsNumber(v) then st'
    else
      var f, s := v.j.v, fl(st.sSum + v.j.v);
      st'.(sSum := s, sNumCount := st.sNumCount + 1,
           sEverUnsafe := st.sEverUnsafe || !Whole(f) || f <= -LIMIT || f >= LIMIT || s <= -LIMIT || s >= LIMIT)
  }

  // Not checked against the limit.
  function Leave(fl: real -> real, st: SumState, v: Value): SumState
  {
    var st' := if Valued(v) then st.(sHasCount := st.sHasCount - 1) else st;
    if !IsNumber(v) then st' else st'.(sSum := fl(st.sSum - v.j.v), sNumCount := st.sNumCount - 1)
  }

  function EnterAll(fl: real -> real, st: SumState, vals: seq<Value>, beg: nat, end: nat): SumState
    requires beg <= end <= |vals|
  {
    if beg == end then st else Enter(fl, EnterAll(fl, st, vals, beg, end - 1), vals[end - 1])
  }

  function LeaveAll(fl: real -> real, st: SumState, vals: seq<Value>, beg: nat, end: nat): SumState
    requires beg <= end <= |vals|
  {
    if beg == end then st else Leave(fl, LeaveAll(fl, st, vals, beg, end - 1), vals[end - 1])
  }

  // One row's move from prev to frame.
  function Slid(fl: real -> real, st: SumState, vals: seq<Value>, prev: Span, frame: Span): SumState
    requires MoveInside(prev, frame, |vals|)
  {
    LeaveRange(fl, EnterRange(fl, st, vals, prev.end, frame.end), vals, prev.beg, frame.beg)
  }

  function EnterRange(fl: real -> real, st: SumState, vals: seq<Value>, a: int, b: int): SumState
    requires ReadsInside(a, b, |vals|)
  {
    if a < b then EnterAll(fl, st, vals, a, b) else st
  }

  function LeaveRange(fl: real -> real, st: SumState, vals: seq<Value>, a: int, b: int): SumState
    requires ReadsInside(a, b, |vals|)
  {
    if a < b then LeaveAll(fl, st, vals, a, b) else st
  }

  lemma RangeNext(fl: real -> real, st: SumState, vals: seq<Value>, a: int, i: int)
    requires a <= i && 0 <= i < |vals| && ReadsInside(a, i, |vals|)
    ensures ReadsInside(a, i + 1, |vals|)
    ensures EnterRange(fl, st, vals, a, i + 1) == Enter(fl, EnterRange(fl, st, vals, a, i), vals[i])
    ensures LeaveRange(fl, st, vals, a, i + 1) == Leave(fl, LeaveRange(fl, st, vals, a, i), vals[i])
  {
    if a == i {
      OneEach(fl, st, vals, i);
    }
  }

  // The running state after p rows; a failed read ends the run.
  function SumRun(fl: real -> real, vals: seq<Value>, frames: seq<Span>, p: nat): Outcome<SumState>
    requires p <= |frames|
  {
    if p == 0 then Done(Zero)
    else match SumRun(fl, vals, frames, p - 1)
         case Done(st) => if MoveInside(Before(frames, p - 1), frames[p - 1], |vals|) then Done(Slid(fl, st, vals, Before(frames, p - 1), frames[p - 1])) else Outside
         case Outside => Outside
  }

  // ---------------------------------------------------------------- the exact sum

  function SumOf(vals: seq<Value>, beg: nat, end: nat): real
    requires beg <= end <= |vals|
  {
    if beg == end then 0.0 else SumOf(vals, beg, end - 1) + NumberOf(vals[end - 1])
  }

  function AbsTotal(vals: seq<Value>, beg: nat, end: nat): (t: real)
    requires beg <= end <= |vals|
    ensures t >= 0.0
  {
    if beg == end then 0.0
    else AbsTotal(vals, beg, end - 1) + (if NumberOf(vals[end - 1]) < 0.0 then -NumberOf(vals[end - 1]) else NumberOf(vals[end - 1]))
  }

  function NumbersIn(vals: seq<Value>, beg: nat, end: nat): (n: int)
    requires beg <= end <= |vals|
    ensures n >= 0
  {
    if beg == end then 0 else NumbersIn(vals, beg, end - 1) + (if IsNumber(vals[end - 1]) then 1 else 0)
  }

  // Integers whose absolute values total less than 2^53.
  ghost predicate Small(vals: seq<Value>, beg: nat, end: nat)
    requires beg <= end <= |vals|
  {
    AbsTotal(vals, beg, end) < LIMIT && forall i :: beg <= i < end ==> Whole(NumberOf(vals[i]))
  }

  // With Splits, what the exact sum is: a row's number, or nothing for a row without one.
  lemma SumOfOne(vals: seq<Value>, i: nat)
    requires i < |vals|
    ensures SumOf(vals, i, i) == 0.0
    ensures SumOf(vals, i, i + 1) == match vals[i] case Val(Number(x, _)) => x case _ => 0.0
  {
    assert SumOf(vals, i, i + 1) == SumOf(vals, i, i) + NumberOf(vals[i]);
  }

  lemma {:induction false} Splits(vals: seq<Value>, a: nat, b: nat, c: nat)
    requires a <= b <= c <= |vals|
    ensures SumOf(vals, a, c) == SumOf(vals, a, b) + SumOf(vals, b, c)
    ensures AbsTotal(vals, a, c) == AbsTotal(vals, a, b) + AbsTotal(vals, b, c)
    ensures NumbersIn(vals, a, c) == NumbersIn(vals, a, b) + NumbersIn(vals, b, c)
    decreases c
  {
    if b < c {
      Splits(vals, a, b, c - 1);
    }
  }

  lemma {:induction false} SmallWithin(vals: seq<Value>, a: nat, b: nat, c: nat, d: nat)
    requires a <= b <= c <= d <= |vals| && Small(vals, a, d)
    ensures Small(vals, b, c)
  {
    Splits(vals, a, b, d);
    Splits(vals, b, c, d);
  }

  lemma {:induction false} SmallSum(vals: seq<Value>, beg: nat, end: nat)
    requires beg <= end <= |vals| && Small(vals, beg, end)
    ensures Whole(SumOf(vals, beg, end)) && -AbsTotal(vals, beg, end) <= SumOf(vals, beg, end) <= AbsTotal(vals, beg, end)
    decreases end
  {
    if beg < end {
      SmallSum(vals, beg, end - 1);
      WholeSum(SumOf(vals, beg, end - 1), NumberOf(vals[end - 1]));
    }
  }

  lemma WholeSum(x: real, y: real)
    requires Whole(x) && Whole(y)
    ensures Whole(x + y) && Whole(x - y)
  {
    WholeInt(x.Floor + y.Floor, x + y);
    WholeInt(x.Floor - y.Floor, x - y);
  }

  lemma WholeInt(k: int, x: real)
    requires x == k as real
    ensures Whole(x)
  {
  }

  // The fresh fold of such operands does not round.
  lemma {:induction false} FreshFoldIsExact(fl: real -> real, vals: seq<Value>, beg: nat, end: nat)
    requires RoundsExactly(fl) && beg <= end <= |vals| && Small(vals, beg, end)
    ensures Fold(SumUpdate(fl), NoNumber, vals, beg, end) ==
            if NumbersIn(vals, beg, end) == 0 then NoNumber else Sum(SumOf(vals, beg, end))
    ensures NumbersIn(vals, beg, end) == 0 ==> SumOf(vals, beg, end) == 0.0
    decreases end
  {
    if beg < end {
      SmallWithin(vals, beg, beg, end - 1, end);
      FreshFoldIsExact(fl, vals, beg, end - 1);
      SmallSum(vals, beg, end);
    }
  }

  // ---------------------------------------------------------------- the sliding sum is exact

  // The state is that of the rows [beg, end), without a rounding so far.
  ghost predicate ExactFor(st: SumState, vals: seq<Value>, beg: nat, end: nat)
    requires beg <= end <= |vals|
  {
    st == SumState(SumOf(vals, beg, end), NumbersIn(vals, beg, end), CountOf(vals, beg, end), false)
  }

  lemma {:induction false} EnterIsExact(fl: real -> real, st: SumState, vals: seq<Value>, beg: nat, end: nat)
    requires RoundsExactly(fl) && beg <= end < |vals| && Small(vals, beg, end + 1) && ExactFor(st, vals, beg, end)
    ensures ExactFor(Enter(fl, st, vals[end]), vals, beg, end + 1)
  {
    SmallSum(vals, beg, end + 1);
    SmallWithin(vals, beg, end, end + 1, end + 1);
    SmallSum(vals, end, end + 1);
    assert SumOf(vals, end, end + 1) == NumberOf(vals[end]);
  }

  lemma {:induction false} LeaveIsExact(fl: real -> real, st: SumState, vals: seq<Value>, beg: nat, end: nat)
    requires RoundsExactly(fl) && beg < end <= |vals| && Small(vals, beg, end) && ExactFor(st, vals, beg, end)
    ensures ExactFor(Leave(fl, st, vals[beg]), vals, beg + 1, end)
  {
    Splits(vals, beg, beg + 1, end);
    CountSplits(vals, beg, beg + 1, end);
    SmallWithin(vals, beg, beg + 1, end, end);
    SmallSum(vals, beg + 1, end);
    assert SumOf(vals, beg, beg + 1) == SumOf(vals, beg, beg) + NumberOf(vals[beg]);
    assert NumbersIn(vals, beg, beg + 1) == NumbersIn(vals, beg, beg) + (if IsNumber(vals[beg]) then 1 else 0);
    assert CountOf(vals, beg, beg + 1) == CountUpdate(CountOf(vals, beg, beg), vals[beg]);
  }

  lemma {:induction false} EnterAllIsExact(fl: real -> real, st: SumState, vals: seq<Value>, prev: Span, end: nat)
    requires RoundsExactly(fl) && Fits(prev, |vals|) && prev.end <= end <= |vals| && Small(vals, prev.beg, end)
    requires ExactFor(st, vals, prev.beg, prev.end)
    ensures ExactFor(EnterAll(fl, st, vals, prev.end, end), vals, prev.beg, end)
    decreases end
  {
    if prev.end < end {
      SmallWithin(vals, prev.beg, prev.beg, end - 1, end);
      EnterAllIsExact(fl, st, vals, prev, end - 1);
      EnterIsExact(fl, EnterAll(fl, st, vals, prev.end, end - 1), vals, prev.beg, end - 1);
    }
  }

  lemma {:induction false} LeaveAllIsExact(fl: real -> real, st: SumState, vals: seq<Value>, from: nat, beg: nat, end: nat)
    requires RoundsExactly(fl) && from <= beg <= end <= |vals| && Small(vals, from, end) && ExactFor(st, vals, from, end)
    ensures ExactFor(LeaveAll(fl, st, vals, from, beg), vals, beg, end)
    decreases beg
  {
    if from < beg {
      LeaveAllIsExact(fl, st, vals, from, beg - 1, end);
      SmallWithin(vals, from, beg - 1, end, end);
      LeaveIsExact(fl, LeaveAll(fl, st, vals, from, beg - 1), vals, beg - 1, end);
    }
  }

  // While the rows of the old and the new frame together stay small, sliding is exact and never unsafe.
  lemma {:induction false} SlidIsExact(fl: real -> real, st: SumState, vals: seq<Value>, prev: Span, frame: Span)
    requires Fits(prev, |vals|) && Fits(frame, |vals|) && prev.beg <= frame.beg && prev.end <= frame.end
    requires RoundsExactly(fl) && Small(vals, prev.beg, frame.end) && ExactFor(st, vals, prev.beg, prev.end)
    ensures ExactFor(Slid(fl, st, vals, prev, frame), vals, frame.beg, frame.end)
  {
    EnterAllIsExact(fl, st, vals, prev, frame.end);
    LeaveAllIsExact(fl, EnterAll(fl, st, vals, prev.end, frame.end), vals, prev.beg, frame.beg, frame.end);
  }

  // ---------------------------------------------------------------- in place, over a partition

  class SlideSum {
    var st: SumState

    constructor ()
      ensures st == Zero
    {
      st := Zero;
    }

    // The rows that entered, then those that left; ok unless one of them is not there.
    method SlideTo(fl: real -> real, vals: seq<Value>, frame: Span, prev: Span) returns (ok: bool)
      modifies this
      ensures ok == MoveInside(prev, frame, |vals|)
      ensures ok ==> st == Slid(fl, old(st), vals, prev, frame)
    {
      var i := prev.end;
      while i < frame.end
        invariant prev.end <= i <= WindowSteps.Max(prev.end, frame.end) && ReadsInside(prev.end, i, |vals|)
        invariant st == EnterRange(fl, old(st), vals, prev.end, i)
      {
        if i < 0 || i >= |vals| {
          return false;
        }
        RangeNext(fl, old(st), vals, prev.end, i);
        st := Enter(fl, st, vals[i]);
        i := i + 1;
      }
      ghost var entered := st;
      i := prev.beg;
      while i < frame.beg
        invariant prev.beg <= i <= WindowSteps.Max(prev.beg, frame.beg) && ReadsInside(prev.beg, i, |vals|)
        invariant st == LeaveRange(fl, entered, vals, prev.beg, i)
      {
        if i < 0 || i >= |vals| {
          return false;
        }
        RangeNext(fl, entered, vals, prev.beg, i);
        st := Leave(fl, st, vals[i]);
        i := i + 1;
      }
      ok := true;
    }

    // SlideSumResult
    method SumResult() returns (r: SumAcc)
      ensures r == ResultOf(st)
    {
      if st.sNumCount == 0 {
        return NoNumber;
      }
      r := Sum(st.sSum);
    }

    // SlideAvgResult
    method AvgResult(fl: real -> real) returns (r: SumAcc)
      ensures r == Average(fl, st.sHasCount, Sum(st.sSum))
    {
      if st.sHasCount == 0 {
        return NoNumber;
      }
      r := Sum(fl(st.sSum / st.sHasCount as real));
    }
  }

  // AggAvg.Result over its count and sum halves; the sum half starts at zero.
  function Average(fl: real -> real, count: int, sum: SumAcc): SumAcc
  {
    if count == 0 then NoNumber else Sum(fl((if sum.Sum? then sum.s else 0.0) / count as real))
  }

  // Where the quotient needs no rounding, the average times the count is the sum.
  lemma AverageIs(fl: real -> real, count: int, sum: real)
    requires count > 0 && fl(sum / count as real) == sum / count as real
    ensures Average(fl, count, Sum(sum)).Sum? && Average(fl, count, Sum(sum)).s * count as real == sum
  {
  }

  // What the running state shows while it is trusted.
  function ResultOf(st: SumState): SumAcc
  {
    if st.sNumCount == 0 then NoNumber else Sum(st.sSum)
  }

  ghost predicate SmallSlides(vals: seq<Value>, frames: seq<Span>)
    requires Slides(frames, |vals|)
  {
    forall p :: 0 <= p < |frames| ==> SmallMove(vals, frames, p)
  }

  // The rows of a frame and of the one before it.
  ghost predicate SmallMove(vals: seq<Value>, frames: seq<Span>, p: int)
    requires Slides(frames, |vals|) && 0 <= p < |frames|
  {
    Small(vals, Before(frames, p).beg, frames[p].end)
  }

  lemma {:induction false} ResultsAreExact(fl: real -> real, st: SumState, vals: seq<Value>, beg: nat, end: nat)
    requires RoundsExactly(fl) && beg <= end <= |vals| && Small(vals, beg, end) && ExactFor(st, vals, beg, end)
    ensures ResultOf(st) == Fold(SumUpdate(fl), NoNumber, vals, beg, end)
    ensures Average(fl, st.sHasCount, Sum(st.sSum)) == Average(fl, CountOf(vals, beg, end), Fold(SumUpdate(fl), NoNumber, vals, beg, end))
  {
    FreshFoldIsExact(fl, vals, beg, end);
  }

  // One row's SUM and AVG, and whether they are the running state's.
  datatype SumRow = SumRow(sum: SumAcc, avg: SumAcc, trusted: bool)

  // SUM and AVG folded afresh.
  function FreshSums(fl: real -> real, vals: seq<Value>, frame: Span): (SumAcc, SumAcc)
    requires Within(frame, |vals|)
  {
    var sum := FreshFold(SumUpdate(fl), NoNumber, vals, frame);
    (sum, Average(fl, FreshFold(CountUpdate, 0, vals, frame), sum))
  }

  // The running state's results while it is trusted, fresh folds once it is not.
  function SumRowAt(fl: real -> real, vals: seq<Value>, frame: Span, run: Outcome<SumState>): Outcome<SumRow>
    requires Within(frame, |vals|)
  {
    match run
    case Outside => Outside
    case Done(st) =>
      if st.sEverUnsafe then Done(SumRow(FreshSums(fl, vals, frame).0, FreshSums(fl, vals, frame).1, false))
      else Done(SumRow(ResultOf(st), Average(fl, st.sHasCount, Sum(st.sSum)), true))
  }

  method ResultsAt(slide: SlideSum, fl: real -> real, vals: seq<Value>, frame: Span) returns (row: SumRow)
    requires Within(frame, |vals|)
    ensures Done(row) == SumRowAt(fl, vals, frame, Done(slide.st))
  {
    if !slide.st.sEverUnsafe {
      var sum := slide.SumResult();
      var avg := slide.AvgResult(fl);
      row := SumRow(sum, avg, true);
    } else {
      var sum := FoldAfresh(SumUpdate(fl), NoNumber, vals, frame);
      var count := FoldAfresh(CountUpdate, 0, vals, frame);
      row := SumRow(sum, Average(fl, count, sum), false);
    }
  }

  // The row's results are the fresh folds'.
  ghost predicate FreshAt(fl: real -> real, vals: seq<Value>, frame: Span, row: Outcome<SumRow>)
    requires Within(frame, |vals|)
  {
    row.Done? && (row.s.sum, row.s.avg) == FreshSums(fl, vals, frame)
  }

  lemma {:induction false} SmallAt(vals: seq<Value>, frames: seq<Span>, p: nat)
    requires Slides(frames, |vals|) && SmallSlides(vals, frames) && p < |frames|
    ensures var prev, frame := Before(frames, p), frames[p];
            && Fits(prev, |vals|) && Fits(frame, |vals|) && prev.beg <= frame.beg && prev.end <= frame.end
            && Small(vals, prev.beg, frame.end)
  {
    assert SmallMove(vals, frames, p);
  }

  lemma {:induction false} SumRunNext(fl: real -> real, vals: seq<Value>, frames: seq<Span>, p: nat, st: SumState)
    requires RoundsExactly(fl) && Slides(frames, |vals|) && SmallSlides(vals, frames)
    requires p < |frames| && SumRun(fl, vals, frames, p) == Done(st) && ExactFor(st, vals, Before(frames, p).beg, Before(frames, p).end)
    ensures SumRun(fl, vals, frames, p + 1).Done? && ExactFor(SumRun(fl, vals, frames, p + 1).s, vals, frames[p].beg, frames[p].end)
  {
    SmallAt(vals, frames, p);
    SlidIsExact(fl, st, vals, Before(frames, p), frames[p]);
  }

  lemma {:induction false} SumRunIsExact(fl: real -> real, vals: seq<Value>, frames: seq<Span>, p: nat)
    requires RoundsExactly(fl) && Slides(frames, |vals|) && SmallSlides(vals, frames) && p <= |frames|
    ensures SumRun(fl, vals, frames, p).Done? && ExactFor(SumRun(fl, vals, frames, p).s, vals, Before(frames, p).beg, Before(frames, p).end)
    decreases p
  {
    if p > 0 {
      SumRunIsExact(fl, vals, frames, p - 1);
      SumRunNext(fl, vals, frames, p - 1, SumRun(fl, vals, frames, p - 1).s);
    }
  }

  // Over frames that slide within the partition and operands that stay small every row is trusted and fresh.
  lemma {:induction false} SmallRowsAreFresh(fl: real -> real, vals: seq<Value>, frames: seq<Span>, p: nat)
    requires RoundsExactly(fl) && Slides(frames, |vals|) && SmallSlides(vals, frames) && p < |frames|
    ensures var row := SumRowAt(fl, vals, frames[p], SumRun(fl, vals, frames, p + 1));
            FreshAt(fl, vals, frames[p], row) && row.s.trusted
  {
    var frame := frames[p];
    SumRunIsExact(fl, vals, frames, p + 1);
    SmallAt(vals, frames, p);
    SmallWithin(vals, Before(frames, p).beg, frame.beg, frame.end, frame.end);
    ResultsAreExact(fl, SumRun(fl, vals, frames, p + 1).s, vals, frame.beg, frame.end);
  }

  // Over a partition: every row's results are those of the run so far, and of small operands the fresh
  // folds' with none folded afresh.
  method SlidingSums(fl: real -> real, vals: seq<Value>, frames: seq<Span>) returns (rows: seq<Outcome<SumRow>>)
    requires forall p :: 0 <= p < |frames| ==> Within(frames[p], |vals|)
    ensures |rows| == |frames|
    ensures forall p: nat :: p < |frames| ==> rows[p] == SumRowAt(fl, vals, frames[p], SumRun(fl, vals, frames, p + 1))
    ensures forall p :: 0 <= p < |frames| && rows[p].Done? && !rows[p].s.trusted ==> FreshAt(fl, vals, frames[p], rows[p])
    ensures RoundsExactly(fl) && Slides(frames, |vals|) && SmallSlides(vals, frames) ==>
              forall p :: 0 <= p < |frames| ==> FreshAt(fl, vals, frames[p], rows[p]) && rows[p].s.trusted
  {
    rows := [];
    var slide := new SlideSum();
    var ok := true;
    for p: nat := 0 to |frames|
      invariant fresh(slide) && |rows| == p
      invariant SumRun(fl, vals, frames, p) == if ok then Done(slide.st) else Outside
      invariant forall q: nat :: q < p ==> rows[q] == SumRowAt(fl, vals, frames[q], SumRun(fl, vals, frames, q + 1))
    {
      if ok {
        ok := slide.SlideTo(fl, vals, frames[p], Before(frames, p));
      }
      var row: Outcome<SumRow> := Outside;
      if ok {
        var r := ResultsAt(slide, fl, vals, frames[p]);
        row := Done(r);
      }
      rows := rows + [row];
    }
    RowsMean(fl, vals, frames, rows);
  }

  lemma {:induction false} RowsMean(fl: real -> real, vals: seq<Value>, frames: seq<Span>, rows: seq<Outcome<SumRow>>)
    requires (forall p :: 0 <= p < |frames| ==> Within(frames[p], |vals|)) && |rows| == |frames|
    requires forall p: nat :: p < |frames| ==> rows[p] == SumRowAt(fl, vals, frames[p], SumRun(fl, vals, frames, p + 1))
    ensures forall p :: 0 <= p < |frames| && rows[p].Done? && !rows[p].s.trusted ==> FreshAt(fl, vals, frames[p], rows[p])
    ensures RoundsExactly(fl) && Slides(frames, |vals|) && SmallSlides(vals, frames) ==>
              forall p :: 0 <= p < |frames| ==> FreshAt(fl, vals, frames[p], rows[p]) && rows[p].s.trusted
  {
    forall p | 0 <= p < |frames| && rows[p].Done? && !rows[p].s.trusted ensures FreshAt(fl, vals, frames[p], rows[p]) {
      UntrustedIsFresh(fl, vals, frames[p], SumRun(fl, vals, frames, p + 1));
    }
    if RoundsExactly(fl) && Slides(frames, |vals|) && SmallSlides(vals, frames) {
      forall p: nat | p < |frames| ensures FreshAt(fl, vals, frames[p], rows[p]) && rows[p].s.trusted {
        SmallRowsAreFresh(fl, vals, frames, p);
      }
    }
  }

  lemma UntrustedIsFresh(fl: real -> real, vals: seq<Value>, frame: Span, run: Outcome<SumState>)
    requires Within(frame, |vals|)
    ensures var row := SumRowAt(fl, vals, frame, run); row.Done? && !row.s.trusted ==> FreshAt(fl, vals, frame, row)
  {
  }

  // ---------------------------------------------------------------- what the latch misses

  // What float64's ties-to-even does to the one inexact sum below; the others need no rounding.
  function Rounded(x: real): real
  {
    if x == 2.0 * LIMIT - 3.0 then 2.0 * LIMIT - 4.0 else x
  }

  function Int(x: int): Value
  {
    Val(Number(x as real, []))
  }

  lemma OneEach(fl: real -> real, st: SumState, vals: seq<Value>, p: nat)
    requires p < |vals|
    ensures EnterAll(fl, st, vals, p, p) == st && EnterAll(fl, st, vals, p, p + 1) == Enter(fl, st, vals[p])
    ensures LeaveAll(fl, st, vals, p, p) == st && LeaveAll(fl, st, vals, p, p + 1) == Leave(fl, st, vals[p])
  {
  }

  // Integers below 2^53 alone are not enough: a subtraction can leave the safe range unnoticed. With
  // ROWS BETWEEN 1 PRECEDING AND CURRENT ROW over these four the last row trusts a sum of -1 for 0.
  lemma LeavingIsNotChecked() returns (vals: seq<Value>, st: SumState)
    ensures |vals| == 4 && forall i :: 0 <= i < 4 ==> IsNumber(vals[i]) && Whole(vals[i].j.v) && -LIMIT < vals[i].j.v < LIMIT
    ensures RoundsExactly(Rounded)
    ensures st == Slid(Rounded, Slid(Rounded, Slid(Rounded, Slid(Rounded, Zero, vals, Span(0, 0), Span(0, 1)),
                       vals, Span(0, 1), Span(0, 2)), vals, Span(0, 2), Span(1, 3)), vals, Span(1, 3), Span(2, 4))
    ensures !st.sEverUnsafe && st.sSum == -1.0 && Fold(SumUpdate(Rounded), NoNumber, vals, 2, 4) == Sum(0.0)
  {
    var m := 9007199254740991;
    vals := [Int(-m), Int(m - 1), Int(m), Int(-m)];
    var a := Slid(Rounded, Zero, vals, Span(0, 0), Span(0, 1));
    OneEach(Rounded, Zero, vals, 0);
    OneEach(Rounded, a, vals, 0);
    assert a == Enter(Rounded, Zero, vals[0]);
    var b := Slid(Rounded, a, vals, Span(0, 1), Span(0, 2));
    OneEach(Rounded, a, vals, 1);
    OneEach(Rounded, b, vals, 0);
    assert b == Enter(Rounded, a, vals[1]) && b.sSum == -1.0;
    var c := Slid(Rounded, b, vals, Span(0, 2), Span(1, 3));
    OneEach(Rounded, b, vals, 2);
    OneEach(Rounded, Enter(Rounded, b, vals[2]), vals, 0);
    assert c == Leave(Rounded, Enter(Rounded, b, vals[2]), vals[0]) && c.sSum == 2.0 * LIMIT - 4.0;
    st := Slid(Rounded, c, vals, Span(1, 3), Span(2, 4));
    OneEach(Rounded, c, vals, 3);
    OneEach(Rounded, Enter(Rounded, c, vals[3]), vals, 1);
    assert st == Leave(Rounded, Enter(Rounded, c, vals[3]), vals[1]);
    assert Fold(SumUpdate(Rounded), NoNumber, vals, 2, 3) == Sum(m as real);
  }
}
